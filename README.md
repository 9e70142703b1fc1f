# Verified model of the Thingstream incremental JSON writer

The library in `lib/json` writes JSON text into a fixed byte buffer that
the caller supplies, without ever allocating. A cursor record `JsonBuffer`
holds the start of the buffer, the write position `ptr`, the limit
`end = len - 1` (the last byte is kept for the terminating NUL) and the
pending-comma flag `need_key_sep`. Every append writes only while
`ptr < end`, except for the escape loop's one write at `end` described
under "Notes on the code as written". Once the buffer is full, bytes are
silently dropped and `json_full` reports it. Keys get their separating comma automatically.
Strings are quoted with the library's own escape dialect. Numbers are
written in decimal and in fixed point.

The project has three layers:

- **Values** (`bytes.dfy`, `decimal.dfy`, `escape.dfy`). These define bytes
  and C strings, the `%u` decimal text and the fixed-point text with what
  they denote, and the escape dialect with its decoder.
- **Reference functions** (`writer.dfy`, `writer_lemmas.dfy`, `calls.dfy`).
  The `Writer.Cursor` datatype is the record as a value. `Writer` has one
  function per C function or macro, giving the whole next cursor for
  every input, including a full buffer and a write that only partly fits.
  `WriterLemmas` proves what those functions write. `Calls` proves what
  holds after any sequence of calls.
- **The object** (`json.dfy`). `Json.JsonBuffer` is a class over an
  `array<Byte>` whose methods repeat the C statements in place: the copy
  loop, the escape loop and the two backward-filling digit loops. Each
  method is proved to leave the object (`Model()`) in exactly the state
  the corresponding `Writer` function computes (`AppendEscaped` is
  `Writer.EscapeStep`, `EscapeLoop` is `Writer.QuoteLoop`,
  `FormatFixedPoint` is `Decimal.FixedPointText`, and `Offset` reads
  `Model().ptr`). So everything proved
  about `Writer` holds of the object. The array index checks prove that
  no write leaves the buffer.

### Modelling decisions

- `ptr` is an unbounded integer offset, not a pointer. Inside the escape
  loop it can pass `end` by up to three (lib/json/json.c:91, 95, 108).
- A C string argument is a sequence `s` followed by an implicit NUL.
  `strlen` is `Bytes.CStrLen`.
- An explicit length passed to `json_chars_append` may not exceed the
  sequence, because the C function reads that many bytes.
- `sprintf("%u")` is `Decimal.Digits`, the conversion of section 7.21.6.1
  of ISO C11: at least one digit and no leading zeros.
- A `char` is modelled by its unsigned value. The printable test
  `' ' <= ch <= '~'` and the nibbles `(ch >> 4) & 0xf` and `ch & 0xf` give
  the same answers for a signed `char`.
- `json_init_buffer` takes the whole array, so `len` is its length.

### Notes on the code as written

- A quote or backslash whose backslash does not fit is still written,
  with no backslash, at index `end`, the byte kept for the NUL. The cursor
  is then past `end`, so `json_terminate` overwrites that byte with NUL
  (`WriterLemmas.QuoteWritesReservedByte`).
- The hex escape of a non-printable byte is three bytes, a backslash and
  two lower-case hex digits, not JSON's `\u00XX`.
- The check `ptr + 3 < end` for the hex escape gives up one byte earlier
  than room requires. Either way the buffer ends up full, and the three
  skipped bytes keep their old contents (`WriterLemmas.StaleBytes`).
- Those skipped bytes end up inside the text. On a full buffer
  `json_terminate` returns `end`, so up to three stale bytes precede the
  NUL, and they may hold a raw quote or newline from earlier use of the
  buffer (`WriterLemmas.StaleInsideTerminated`). The quote case above
  leaves index `end - 1` stale in the same way.
- `json_end_object` and `json_end_array` set the pending-comma flag even
  when the buffer is full and the closing byte is dropped. The flag shows
  after a `json_reset` to an earlier offset: the next key gets a comma
  (`WriterLemmas.CommaAfterDroppedClose`).
- `json_full` means `ptr >= end`, not that anything was dropped. A
  message that ends exactly at `end` is complete and still reports full:
  `QuotedOutput` has `r.Full() <==> c.ptr + |e| + 2 >= c.End()`, and the
  21-byte buffer of `WriterLemmas.ObjectExample` is full after its closing
  brace. A caller that treats `json_full` as "truncated" discards such a
  complete message.

## Model

| member | source | states |
|---|---|---|
| Bytes.CStrLen | lib/json/json.c:77-78 | `strlen`: the result is the index of the first NUL of the string. No byte before it is NUL. |
| Decimal.Digits | lib/json/json.c:131-133 | The `%u` text of a value is canonical: at least one digit, each a decimal digit, and no leading zero. |
| Decimal.DigitsValue | lib/json/json.c:131-133 | The `%u` text reads back as the value it was made from (round trip). |
| Decimal.CanonicalIsDigits | lib/json/json.c:131-133 | Converse round trip: every canonical digit string is the `%u` text of its value. |
| Decimal.DigitsLength | lib/json/json.c:131-133 | A value below 10^k has at most k digits. |
| Decimal.UInt32DigitsLength | lib/json/json.c:131-133 | A `uint32_t` has at most 10 digits, so the 12-byte scratch holds them and the NUL. |
| Decimal.Pad | lib/json/json.c:190-195 | `k` rounds of `*--cp = '0' + val % 10; val /= 10` leave exactly `k` decimal digits. |
| Decimal.PadValue | lib/json/json.c:190-195 | Those `k` digits denote `val mod 10^k`. |
| Decimal.Shift | lib/json/json.c:190-195 | What the rounds leave of `val` is never larger than `val`. |
| Decimal.ShiftValue | lib/json/json.c:190-195 | What remains after `k` rounds is `val / 10^k`. |
| Decimal.FixedPointText | lib/json/json.c:184-205 | The formatter's text: at least `places + 2` bytes, with `-` first exactly when the number is negative, and a point followed by exactly `places` decimal digits at the end. |
| Decimal.FixedPointMeaning | lib/json/json.c:181-206 | The fixed-point text has three parts. The first is `-` exactly when the number is negative. The second is a canonical integer part equal to `abs / 10^places`. After the point come exactly `places` digits equal to `abs mod 10^places`. Together they read back as the magnitude. |
| Decimal.FixedPointExample153 | lib/json/json.h:55-56 | 153 with one place gives `15.3`. |
| Decimal.FixedPointExampleNegative | lib/json/json.h:57 | -42 with four places gives `-0.0042`. |
| Decimal.FixedPointExampleZero | lib/json/json.c:197-202 | 3 with one place gives `0.3`: the do-while writes a `0` integer digit. |
| Escaping.EscapeByte | lib/json/json.c:91-114 | One byte's escape is 1 to 3 printable bytes. It is one byte exactly when the input is printable and neither a quote nor a backslash. A longer escape starts with a backslash. |
| Escaping.Escape | lib/json/json.c:86-116 | The escaped text contains only printable bytes, so no raw newline or control byte. It is 1 to 3 times the input length. |
| Escaping.EscapeRoundTrip | lib/json/json.c:86-116 | The decoder of the dialect recovers every string from its escape, so escaping is injective. |
| Writer.Cursor | lib/json/json.h:26-31 | The record: the whole buffer, the offset `ptr` into it, and the pending-comma flag. `end` is `End()`, the last byte, kept for the NUL. |
| Writer.Cursor.Full | lib/json/json.h:70 | `json_full`: the offset has reached or passed `end`. |
| Writer.InitBuffer | lib/json/json.c:25-35 | A fresh cursor has offset 0, limit `len - 1` and the flag clear. It is full exactly when `len == 1`. |
| Writer.CharAppend | lib/json/json.c:37-41 | When `ptr < end`, the byte goes at `ptr` and `ptr` advances by one. Otherwise storage and `ptr` are unchanged. The flag is kept. |
| Writer.CharAppendKeySep | lib/json/json.c:43-48 | As CharAppend, and the flag takes the argument even when the byte was dropped. |
| Writer.StartArray | lib/json/json.h:64 | Writes `[` if there is room and leaves the flag as it was. |
| Writer.EndArray | lib/json/json.h:65 | Writes `]` if there is room and always sets the flag. |
| Writer.StartObject | lib/json/json.h:66 | Writes `{` if there is room and always clears the flag. |
| Writer.EndObject | lib/json/json.h:67 | Writes `}` if there is room and always sets the flag. |
| Writer.Separator | lib/json/json.h:68 | Writes `,` if there is room and always clears the flag. |
| Writer.Terminate | lib/json/json.c:50-63 | The returned length `r` is in `0..len-1` and `storage[r]` is NUL. The text before `r` is kept. When full, `r = len - 1` and `ptr` stays. Otherwise `r` is the old offset and `ptr` advances by one. The new storage is the old one with only `storage[r]` set to NUL. |
| Writer.Reset | lib/json/json.c:70-73 | `json_reset`: the offset becomes `offset`. The storage and the flag are unchanged. |
| Writer.CharsCount | lib/json/json.c:77-78 | The number of bytes taken never exceeds the string. |
| Writer.PutAll | lib/json/json.c:79-80 | Copying bytes one at a time keeps the storage size and the flag. The cursor never moves back, and a full buffer is left unchanged. |
| Writer.PutAllAdvances | lib/json/json.c:79-80 | The byte-by-byte copy keeps the append invariant. |
| Writer.CharsAppend | lib/json/json.c:75-81 | The storage keeps its size and the cursor only moves forward. The bytes before the cursor are kept. A full buffer is left unchanged. |
| Writer.ReserveSlot | lib/json/json.c:91-99 | The cursor moves by at most one and never past `end`. The storage is unchanged, or the cursor moved and a backslash now sits at the old cursor. The byte to print changes only for a newline whose backslash was written, and then to `n`. |
| Writer.PutEscaped | lib/json/json.c:101-114 | A printable byte advances `ptr` by one and any other byte by three. The storage keeps its size and the flag is kept. |
| Writer.EscapeStep | lib/json/json.c:88-115 | One pass of the escape loop keeps the storage size and the flag. The cursor moves forward, and at most three past `end`. |
| Writer.EscapeStepAdvances | lib/json/json.c:88-115 | One pass also keeps the bytes before the cursor, so it keeps the append invariant. |
| Writer.QuoteLoop | lib/json/json.c:86-116 | The escape loop keeps the storage size and the flag, and the cursor never moves back. |
| Writer.QuoteLoopAdvances | lib/json/json.c:86-116 | The whole loop keeps the append invariant. |
| Writer.QuoteLoopAt | lib/json/json.c:86-90 | Read from index `i`, the loop either stops (count spent, buffer full or NUL read) and changes nothing, or runs one pass on `str[i]` and goes on from `i + 1`. |
| Writer.Visible | lib/json/json.c:86-90 | The bytes the loop is asked to escape are a prefix of the string with no NUL. |
| Writer.QuotedStringLenAppend | lib/json/json.c:83-118 | The quoted-string writer keeps the append invariant and the flag. On a buffer that is not full, the byte at the old cursor is the opening quote. |
| Writer.KeyAppend | lib/json/json.c:120-127 | Always leaves the flag set. Unless the buffer was full, its first byte is a comma when the flag was set and a quote when it was not. |
| Writer.UInt32Append | lib/json/json.c:129-134 | Keeps the append invariant and the flag. |
| Writer.NamedUInt32Append | lib/json/json.c:136-140 | Keeps the append invariant and leaves the flag set. |
| Writer.NamedInt32Append | lib/json/json.c:142-152 | Keeps the append invariant and leaves the flag set. |
| Writer.NamedStringAppend | lib/json/json.c:154-158 | Keeps the append invariant and leaves the flag set. |
| Writer.NamedCStringAppend | lib/json/json.c:160-164 | Keeps the append invariant and leaves the flag set. |
| Writer.NamedCharsAppend | lib/json/json.c:166-170 | Keeps the append invariant and leaves the flag set. |
| Writer.NamedBoolAppend | lib/json/json.c:172-179 | Keeps the append invariant and leaves the flag set. |
| Writer.NamedFixedPointAppend | lib/json/json.c:181-209 | Keeps the append invariant and leaves the flag set. |
| WriterLemmas.CharAppendEmits | lib/json/json.c:37-41 | A byte written with room is the one-byte emit at the cursor. |
| WriterLemmas.EscapeStepOutput | lib/json/json.c:88-115 | A byte's whole escape is written, and exactly that, when it fits strictly before `end` or, for an escape of one or two bytes, when it ends exactly at `end`. When it does not fit before `end`, the pass leaves the buffer full. |
| WriterLemmas.QuoteLoopStep | lib/json/json.c:86-116 | One pass of the loop on the C string is one pass on its visible bytes. |
| WriterLemmas.QuoteLoopIsEscapeAll | lib/json/json.c:86-116 | The loop on the C string escapes exactly its visible bytes, one pass per byte, stopping when the buffer is full. |
| WriterLemmas.EscapeAllFits | lib/json/json.c:88-115 | Escaping a byte sequence pass by pass writes its escape when that fits strictly before `end`. |
| WriterLemmas.EscapeAllOverflows | lib/json/json.c:88-115 | When it does not fit, the passes leave the buffer full. |
| WriterLemmas.StaleBytes | lib/json/json.c:108-114 | A hex escape that does not fit moves `ptr` three bytes and into the full state. The storage is not changed. |
| WriterLemmas.StaleInsideTerminated | lib/json/json.c:52-61 | With three bytes before `end`, quoting the one-byte string 0x01 and terminating gives length `end`: the opening quote, then the two old bytes unchanged, then the NUL. |
| WriterLemmas.PutAllCopies | lib/json/json.c:79-80 | Unless the buffer is full, the copy loop writes exactly the first `min(count, end - ptr)` bytes verbatim. |
| WriterLemmas.CharsAppendCopies | lib/json/json.c:75-81 | `json_chars_append` copies the first `min(n, end - ptr)` bytes, where `n` is `len` or, for a negative `len`, the length up to the first NUL. |
| WriterLemmas.QuoteLoopFits | lib/json/json.c:86-116 | When the escape of the visible bytes fits strictly before `end`, the loop writes exactly that escape. |
| WriterLemmas.QuoteLoopOverflows | lib/json/json.c:86-116 | When it does not fit, the loop ends with the buffer full. |
| WriterLemmas.QuotedOutput | lib/json/json.c:83-118 | When `"` + escape + `"` fits, exactly that is written. The buffer ends up full exactly when it does not fit with a byte to spare. |
| WriterLemmas.QuoteWritesReservedByte | lib/json/json.c:91-103 | A quote whose backslash slot is the last free byte is written at index `end` with no backslash, and `ptr` ends at `end + 1`. |
| WriterLemmas.KeyOutput | lib/json/json.c:120-127 | When it fits, the key writes `,` exactly when the flag was set, then the quoted escaped name, then `:`. The flag is left set. |
| WriterLemmas.CommaPlacement | lib/json/json.h:64-68 | The first key after `json_start_object` begins with a quote. A key after `json_end_object` or `json_end_array` begins with a comma. `json_separator` and `json_start_object` clear the flag; `json_start_array` keeps it. |
| WriterLemmas.CommaAfterDroppedClose | lib/json/json.c:43-48 | On a full buffer `json_end_object` and `json_end_array` leave the storage as it was, yet after a rewind to an earlier offset the next key begins with a comma: the flag was set although the closing byte was dropped. |
| WriterLemmas.Int32Text | lib/json/json.c:145-151 | The text written after the key: non-empty, with `-` first exactly when the value is negative, and the rest all decimal digits. |
| WriterLemmas.Int32TextMeaning | lib/json/json.c:142-152 | The int32 text starts with `-` exactly when the value is negative. Its digits are canonical, read back as the magnitude (2^31 for INT32_MIN), and the text is at most 11 bytes. |
| WriterLemmas.UInt32Output | lib/json/json.c:129-134 | When it fits, exactly the `%u` text is written. |
| WriterLemmas.NamedUInt32Output | lib/json/json.c:136-140 | When it fits, the key is followed by exactly the `%u` text. |
| WriterLemmas.NamedInt32Output | lib/json/json.c:142-152 | When it fits, the key is followed by exactly the signed decimal text. |
| WriterLemmas.NamedBoolOutput | lib/json/json.c:172-179 | When it fits, the key is followed by exactly `true` or `false`. |
| WriterLemmas.NamedStringOutput | lib/json/json.c:154-158 | When it fits, the key is followed by exactly a quote, the escape of the first `len` bytes up to any NUL, and a quote. |
| WriterLemmas.NamedCStringOutput | lib/json/json.c:160-164 | When it fits, the key is followed by exactly a quote, the escape of the whole C string, and a quote. |
| WriterLemmas.NamedCharsOutput | lib/json/json.c:166-170 | After the key, exactly the first `min(n, end - ptr)` bytes are copied verbatim, with `n` the length or `strlen` for a negative length. If the key filled the buffer, nothing changes. |
| WriterLemmas.NamedFixedPointOutput | lib/json/json.c:181-209 | When it fits, the key is followed by exactly the fixed-point text. |
| WriterLemmas.RewindDiscards | lib/json/json.c:65-73 | After `json_reset(o)` the offset is `o`. Writing bytes that fit up to `end` after a rewind to a bookmark and terminating gives the text before the bookmark and then only the new bytes. |
| WriterLemmas.EmptyObjectExample | lib/json/json.h:66-67 | `start_object; end_object` terminates as `{}` with length 2. |
| WriterLemmas.ObjectExample | lib/json/json.c:172-179 | `start_object; "a": true; "b": false; end_object` terminates as exactly `{"a":true,"b":false}`, with one comma, length 20 and a NUL after it. |
| Calls.Apply | lib/json/json.c:37-179 | Every append call keeps the append invariant. |
| Calls.Run | lib/json/json.c:37-179 | A sequence of calls keeps the cursor well formed. |
| Calls.RunAdvances | lib/json/json.c:37-179 | Any sequence of append calls keeps the invariant of a single one. The cursor moves only forward and at most three past `end`, and the text before the starting cursor is kept. |
| Calls.FullIsFinal | lib/json/json.h:70 | Once `json_full` holds, no sequence of appends changes a byte or the cursor. Only the flag may change. |
| Calls.TerminatedAfterRun | lib/json/json.c:50-63 | After any appends on a fresh buffer, the terminator's length is at most `len - 1` and the byte there is NUL. |
| Json.JsonBuffer.Full | lib/json/json.h:70 | `json_full` is `ptr >= end`, the reference predicate on the model. |
| Json.JsonBuffer.constructor | lib/json/json.c:25-35 | The new object is the reference initial cursor over the array. |
| Json.JsonBuffer.CharAppend | lib/json/json.c:37-41 | The in-place write leaves exactly the reference cursor. |
| Json.JsonBuffer.CharAppendKeySep | lib/json/json.c:43-48 | The in-place write leaves exactly the reference cursor. |
| Json.JsonBuffer.StartArray | lib/json/json.h:64 | The state afterwards is the reference's. |
| Json.JsonBuffer.EndArray | lib/json/json.h:65 | The state afterwards is the reference's. |
| Json.JsonBuffer.StartObject | lib/json/json.h:66 | The state afterwards is the reference's. |
| Json.JsonBuffer.EndObject | lib/json/json.h:67 | The state afterwards is the reference's. |
| Json.JsonBuffer.Separator | lib/json/json.h:68 | The state afterwards is the reference's. |
| Json.JsonBuffer.Terminate | lib/json/json.c:50-63 | The returned `uint32_t` and the state afterwards are the reference's. |
| Json.JsonBuffer.Offset | lib/json/json.c:65-68 | Returns the cursor offset. |
| Json.JsonBuffer.Reset | lib/json/json.c:70-73 | Only the offset changes, to the argument. |
| Json.JsonBuffer.CharsAppend | lib/json/json.c:75-81 | The copy loop leaves exactly the reference cursor. |
| Json.JsonBuffer.AppendEscaped | lib/json/json.c:88-115 | One pass of the escape loop body in place equals the reference pass. |
| Json.JsonBuffer.EscapeLoop | lib/json/json.c:86-116 | The escape loop in place leaves exactly the reference loop's cursor. |
| Json.JsonBuffer.ReserveSlot | lib/json/json.c:91-99 | The in-place backslash slot and the returned byte are the reference's. |
| Json.JsonBuffer.PutEscaped | lib/json/json.c:101-114 | The in-place print or hex escape equals the reference's. |
| Json.JsonBuffer.QuotedStringLenAppend | lib/json/json.c:83-118 | The quotes and the escape loop in place leave exactly the reference cursor. |
| Json.JsonBuffer.KeyAppend | lib/json/json.c:120-127 | The state afterwards is the reference's. |
| Json.JsonBuffer.UInt32Append | lib/json/json.c:129-134 | The state afterwards is the reference's. |
| Json.JsonBuffer.NamedUInt32Append | lib/json/json.c:136-140 | The state afterwards is the reference's. |
| Json.JsonBuffer.NamedInt32Append | lib/json/json.c:142-152 | The state afterwards is the reference's. |
| Json.JsonBuffer.NamedStringAppend | lib/json/json.c:154-158 | The state afterwards is the reference's. |
| Json.JsonBuffer.NamedCStringAppend | lib/json/json.c:160-164 | The state afterwards is the reference's. |
| Json.JsonBuffer.NamedCharsAppend | lib/json/json.c:166-170 | The state afterwards is the reference's. |
| Json.JsonBuffer.NamedBoolAppend | lib/json/json.c:172-179 | The state afterwards is the reference's. |
| Json.JsonBuffer.NamedFixedPointAppend | lib/json/json.c:181-209 | The state afterwards is the reference's. |
| Json.FormatFixedPoint | lib/json/json.c:184-204 | The text built backwards in the 40-byte local buffer is exactly the fixed-point text whose meaning `Decimal.FixedPointMeaning` states. |
| Json.FillFraction | lib/json/json.c:190-196 | The first do-while loop and the point leave `.` and the lowest `places` digits at the end of the buffer. The value left is the magnitude divided by 10^places. |
| Json.FillIntegerPart | lib/json/json.c:197-202 | The second do-while loop puts the `%u` digits of the value, at least one, in front of what is there. |

## Left out

- `src/M5StickCO2.cpp` is not part of this model. It is the device program: the sensor, display, WiFi and MQTT calls. Its float-to-tenths conversions are floating point.
- The internals of `sprintf` and `strlen`. They are replaced by `Decimal.Digits` and `Bytes.CStrLen`.
- I/O of any kind. The writer performs none; the caller owns the buffer.
- Writer.NamedInt32Append: negating INT32_MIN is undefined behaviour in C. The model gives it the magnitude 2^31, which two's complement targets produce.
- Writer.NamedFixedPointAppend: `places` outside 1..15 is excluded by a precondition, as lib/json/json.h:58-59 demands. The C code itself formats correctly up to 38 places (37 for a negative number): from 10 places on, the integer part is a single `0`, and the text takes `places + 2` bytes plus the sign. `places == 0` makes `--places` wrap, and more than 38 places (37 when negative) writes before the 40-byte local buffer; the model does not cover these.
- Json.JsonBuffer.constructor: `len` is the whole array. A `len` smaller than the array, or zero, is not modelled. Zero would make the terminator write before the buffer.
- Json.JsonBuffer.Reset: the C code forms `buffer + offset` for any offset. The model keeps the offset as an integer, and every later append treats an offset at or past `end` as full.
- Writer.CharsAppend: an explicit `len` larger than the string is excluded, because the C function would read past the object.
- Pointer aliasing between the output buffer and the strings passed in is not modelled. Strings are values.
- Any JSON parsing or nesting check. The writer performs none.
