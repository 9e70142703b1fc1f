/** What the writer's functions produce: the exact text when it fits, a
    full buffer when it does not, comma placement, termination, rewinding,
    and the examples of lib/json/json.h. */
module WriterLemmas {
  import opened Bytes
  import opened Decimal
  import opened Escaping
  import opened Writer

  // ---------------------------------------------------------------------
  // Emit algebra

  lemma EmitNothing(c: Cursor)
    requires 0 <= c.ptr <= |c.storage|
    ensures c.Emit([]) == c
  {
    assert c.storage[..c.ptr] + [] + c.storage[c.ptr..] == c.storage;
  }

  lemma EmitEmit(c: Cursor, a: seq<Byte>, b: seq<Byte>)
    requires 0 <= c.ptr && c.ptr + |a| + |b| <= |c.storage|
    ensures c.Emit(a).Emit(b) == c.Emit(a + b)
  {
    var s := c.storage;
    var p := c.ptr;
    var once := s[..p] + a + s[p + |a|..];
    assert once[..p + |a|] == s[..p] + a;
    assert once[p + |a| + |b|..] == s[p + |a| + |b|..];
    assert once[..p + |a|] + b + once[p + |a| + |b|..] == s[..p] + (a + b) + s[p + |a + b|..];
  }

  /** After an emit, the text up to the cursor is the old text up to the
      old cursor followed by the bytes. */
  lemma EmitPrefix(c: Cursor, bytes: seq<Byte>)
    requires 0 <= c.ptr && c.ptr + |bytes| <= |c.storage|
    ensures c.Emit(bytes).storage[..c.ptr + |bytes|] == c.storage[..c.ptr] + bytes
  {
  }

  lemma AdvancesPrefix(c: Cursor, d: Cursor)
    requires Advances(c, d) && 0 <= c.ptr <= |c.storage|
    ensures d.storage[..c.ptr] == c.storage[..c.ptr]
  {
  }

  lemma EmitFlag(c: Cursor, bytes: seq<Byte>, flag: bool)
    requires 0 <= c.ptr && c.ptr + |bytes| <= |c.storage|
    ensures c.(needKeySep := flag).Emit(bytes) == c.Emit(bytes).(needKeySep := flag)
  {
  }

  /** Writing one byte in place is emitting it. */
  lemma CharAppendEmits(c: Cursor, ch: Byte)
    requires c.Valid() && !c.Full()
    ensures CharAppend(c, ch) == c.Emit([ch])
  {
    assert c.storage[c.ptr := ch] == c.storage[..c.ptr] + [ch] + c.storage[c.ptr + 1..];
  }

  /** One pass of the escape loop writes the byte's whole escape when it
      fits strictly before `end`, or, for an escape of one or two bytes,
      when it ends exactly at `end`; otherwise the buffer is left full.
      Only the hex escape needs a byte to spare (line 110 tests the cursor
      after the step). */
  lemma EscapeStepOutput(c: Cursor, ch: Byte)
    requires c.Valid() && !c.Full()
    ensures var e := EscapeByte(ch);
            (c.ptr + |e| < c.End() || (|e| <= 2 && c.ptr + |e| == c.End()) ==>
               EscapeStep(c, ch) == c.Emit(e)) &&
            (c.ptr + |e| >= c.End() ==> EscapeStep(c, ch).Full())
  {
    var e := EscapeByte(ch);
    var r := EscapeStep(c, ch);
    var s: seq<Byte>, p := c.storage, c.ptr;
    if p + |e| < c.End() || (|e| <= 2 && p + |e| == c.End()) {
      if |e| == 1 {
        assert r.storage == s[p := e[0]];
      } else if |e| == 2 {
        assert r.storage == s[p := e[0]][p + 1 := e[1]];
      } else {
        assert r.storage == s[p := e[0]][p + 1 := e[1]][p + 2 := e[2]];
      }
      SpliceIsUpdates(s, p, e);
    }
  }

  /** A hex escape that overflows steps `ptr` over three bytes it never
      writes: they keep whatever the buffer held (lib/json/json.c:108-114). */
  lemma StaleBytes(c: Cursor, ch: Byte)
    requires c.Valid() && !c.Full() && !Printable(ch) && ch != NEWLINE && c.ptr + 3 >= c.End()
    ensures var r := EscapeStep(c, ch);
            r.storage == c.storage && r.ptr == c.ptr + 3 && r.Full()
  {
  }

  // ---------------------------------------------------------------------
  // Sequence identities, each proved once

  /** Splicing at most three bytes in is updating them one by one. */
  lemma SpliceIsUpdates(s: seq<Byte>, p: nat, e: seq<Byte>)
    requires 1 <= |e| <= 3 && p + |e| <= |s|
    ensures |e| == 1 ==> s[..p] + e + s[p + 1..] == s[p := e[0]]
    ensures |e| == 2 ==> s[..p] + e + s[p + 2..] == s[p := e[0]][p + 1 := e[1]]
    ensures |e| == 3 ==> s[..p] + e + s[p + 3..] == s[p := e[0]][p + 1 := e[1]][p + 2 := e[2]]
  {
  }

  lemma TakeTake(s: seq<Byte>, n: nat, k: nat)
    requires k <= n <= |s|
    ensures s[..n][..k] == s[..k]
  {
  }

  lemma ConsTake(s: seq<Byte>, k: nat)
    requires 1 <= |s| && k < |s|
    ensures [s[0]] + s[1..][..k] == s[..k + 1]
  {
  }

  // ---------------------------------------------------------------------
  // Verbatim bytes

  /** json_chars_append copies exactly `min(count, end - ptr)` bytes when
      the buffer is not full. */
  lemma {:induction false} PutAllCopies(c: Cursor, bytes: seq<Byte>)
    requires c.Valid() && !c.Full()
    ensures PutAll(c, bytes) == c.Emit(bytes[..Min(|bytes|, c.End() - c.ptr)])
    decreases |bytes|
  {
    if bytes == [] {
      EmitNothing(c);
    } else {
      var b := bytes[0];
      var c1 := CharAppend(c, b);
      CharAppendEmits(c, b);
      assert PutAll(c, bytes) == PutAll(c1, bytes[1..]);
      if c1.Full() {
        assert Min(|bytes|, c.End() - c.ptr) == 1;
        ConsTake(bytes, 0);
      } else {
        var k := Min(|bytes| - 1, c1.End() - c1.ptr);
        PutAllCopies(c1, bytes[1..]);
        assert PutAll(c1, bytes[1..]) == c.Emit([b]).Emit(bytes[1..][..k]);
        EmitEmit(c, [b], bytes[1..][..k]);
        assert k + 1 == Min(|bytes|, c.End() - c.ptr);
        ConsTake(bytes, k);
      }
    }
  }

  /** json_chars_append (lib/json/json.c:75-81): a negative length means
      "up to the first NUL"; the bytes go in verbatim, as many as fit (on a
      full buffer nothing changes: CharsAppend ensures Advances). */
  lemma CharsAppendCopies(c: Cursor, str: seq<Byte>, len: int)
    requires c.Valid() && !c.Full() && len <= |str|
    ensures var n := if len < 0 then CStrLen(str) else len;
            CharsAppend(c, str, len) == c.Emit(str[..Min(n, c.End() - c.ptr)])
  {
    var n := CharsCount(str, len);
    var k := Min(n, c.End() - c.ptr);
    var prefix := str[..n];
    PutAllCopies(c, prefix);
    TakeTake(str, n, k);
  }

  lemma PutAllFits(c: Cursor, bytes: seq<Byte>)
    requires c.Valid() && c.ptr + |bytes| <= c.End()
    ensures PutAll(c, bytes) == c.Emit(bytes)
  {
    if bytes == [] {
      EmitNothing(c);
    } else {
      PutAllCopies(c, bytes);
      assert bytes[..|bytes|] == bytes;
    }
  }

  // ---------------------------------------------------------------------
  // Quoted strings

  lemma VisibleCons(str: seq<Byte>, n: int)
    requires n > 0 && str != [] && str[0] != NUL
    ensures Visible(str, n) == [str[0]] + Visible(str[1..], n - 1)
  {
    var k := CStrLen(str[1..]);
    assert CStrLen(str) == 1 + k;
    if n - 1 <= 0 {
      assert Visible(str, n) == str[..1];
    } else {
      assert Min(n, 1 + k) == 1 + Min(n - 1, k);
      assert str[..1 + Min(n - 1, k)] == [str[0]] + str[1..][..Min(n - 1, k)];
    }
  }

  lemma VisibleEmpty(str: seq<Byte>, n: int)
    requires n <= 0 || ByteAt(str, 0) == NUL
    ensures Visible(str, n) == []
  {
    if n > 0 {
      assert CStrLen(str) == 0;
    }
  }

  /** The escape loop over the bytes it is asked to escape, once the
      C-string tests (count exhausted, NUL reached) are taken out. */
  function EscapeAll(c: Cursor, v: seq<Byte>): (r: Cursor)
    requires c.Valid()
    decreases |v|
  {
    if v == [] || c.Full() then c else EscapeAll(EscapeStep(c, v[0]), v[1..])
  }

  /** One turn of the loop on the C string is one turn on its visible bytes. */
  lemma QuoteLoopStep(c: Cursor, str: seq<Byte>, n: int)
    requires c.Valid() && !c.Full() && n > 0 && ByteAt(str, 0) != NUL
    ensures QuoteLoop(c, str, n) == QuoteLoop(EscapeStep(c, str[0]), str[1..], n - 1)
    ensures EscapeAll(c, Visible(str, n)) == EscapeAll(EscapeStep(c, str[0]), Visible(str[1..], n - 1))
  {
    var v := Visible(str[1..], n - 1);
    VisibleCons(str, n);
    assert ([str[0]] + v)[1..] == v;
  }

  /** The loop of lines 86-116 escapes exactly the visible bytes. */
  lemma {:induction false} QuoteLoopIsEscapeAll(c: Cursor, str: seq<Byte>, n: int)
    requires c.Valid()
    ensures QuoteLoop(c, str, n) == EscapeAll(c, Visible(str, n))
    decreases |str|
  {
    if n <= 0 || ByteAt(str, 0) == NUL {
      VisibleEmpty(str, n);
    } else if c.Full() {
      VisibleCons(str, n);
    } else {
      QuoteLoopStep(c, str, n);
      QuoteLoopIsEscapeAll(EscapeStep(c, str[0]), str[1..], n - 1);
    }
  }

  lemma {:induction false} EscapeAllFits(c: Cursor, v: seq<Byte>)
    requires c.Valid() && c.ptr + |Escape(v)| < c.End()
    ensures EscapeAll(c, v) == c.Emit(Escape(v))
    decreases |v|
  {
    if v == [] {
      EmitNothing(c);
    } else {
      var e, t := EscapeByte(v[0]), Escape(v[1..]);
      assert Escape(v) == e + t;
      EscapeStepOutput(c, v[0]);
      EscapeAllFits(c.Emit(e), v[1..]);
      EmitEmit(c, e, t);
    }
  }

  lemma {:induction false} EscapeAllOverflows(c: Cursor, v: seq<Byte>)
    requires c.Valid() && c.ptr + |Escape(v)| >= c.End()
    ensures EscapeAll(c, v).Full()
    decreases |v|
  {
    if v != [] && !c.Full() {
      var e, t := EscapeByte(v[0]), Escape(v[1..]);
      assert Escape(v) == e + t;
      EscapeStepOutput(c, v[0]);
      if c.ptr + |e| < c.End() {
        EscapeAllOverflows(c.Emit(e), v[1..]);
      }
    }
  }

  /** When the escaped text fits strictly before `end`, the loop writes
      exactly that text. */
  lemma QuoteLoopFits(c: Cursor, str: seq<Byte>, n: int)
    requires c.Valid() && c.ptr + |Escape(Visible(str, n))| < c.End()
    ensures QuoteLoop(c, str, n) == c.Emit(Escape(Visible(str, n)))
  {
    QuoteLoopIsEscapeAll(c, str, n);
    EscapeAllFits(c, Visible(str, n));
  }

  /** When it does not, the loop leaves the buffer full. */
  lemma QuoteLoopOverflows(c: Cursor, str: seq<Byte>, n: int)
    requires c.Valid() && c.ptr + |Escape(Visible(str, n))| >= c.End()
    ensures QuoteLoop(c, str, n).Full()
  {
    QuoteLoopIsEscapeAll(c, str, n);
    EscapeAllOverflows(c, Visible(str, n));
  }

  /** json_quoted_string_len_append (lib/json/json.c:83-118): when
      `"` + escape + `"` fits, that is what is written; the buffer ends up
      full exactly when it does not fit with a byte to spare. */
  lemma QuotedOutput(c: Cursor, str: seq<Byte>, len: int)
    requires c.Valid()
    ensures var e, r := Escape(Visible(str, len)), QuotedStringLenAppend(c, str, len);
            (c.ptr + |e| + 2 <= c.End() ==> r == c.Emit([QUOTE] + e + [QUOTE])) &&
            (r.Full() <==> c.ptr + |e| + 2 >= c.End())
  {
    var e := Escape(Visible(str, len));
    var c1 := CharAppend(c, QUOTE);
    var c2 := QuoteLoop(c1, str, len);
    if c.ptr + |e| + 2 <= c.End() {
      CharAppendEmits(c, QUOTE);
      QuoteLoopFits(c1, str, len);
      CharAppendEmits(c2, QUOTE);
      EmitEmit(c, [QUOTE], e);
      EmitEmit(c, [QUOTE] + e, [QUOTE]);
    } else if !c.Full() {
      CharAppendEmits(c, QUOTE);
      QuoteLoopOverflows(c1, str, len);
    }
  }

  /** The quote whose backslash slot is the last free byte is still
      written, into the byte reserved for the terminator (line 91 fails,
      line 103 writes at `end`). */
  lemma QuoteWritesReservedByte(c: Cursor)
    requires c.Valid() && c.ptr + 2 == c.End()
    ensures var r := QuotedStringLenAppend(c, [QUOTE], 1);
            r.storage[c.End()] == QUOTE && r.ptr == c.End() + 1 &&
            r.storage[c.ptr] == QUOTE && r.storage[c.ptr + 1] == c.storage[c.ptr + 1]
  {
    var c1 := CharAppend(c, QUOTE);
    assert QuoteLoop(c1, [QUOTE], 1) == QuoteLoop(EscapeStep(c1, QUOTE), [], 0);
  }

  // ---------------------------------------------------------------------
  // Keys

  /** The text json_key_append writes when it fits. */
  function KeyText(needKeySep: bool, name: seq<Byte>): seq<Byte>
  {
    var comma: seq<Byte> := if needKeySep then "," else "";
    comma + ([QUOTE] + Escape(Visible(name, INT_MAX)) + [QUOTE]) + [':']
  }

  /** json_key_append (lib/json/json.c:120-127): a comma iff the flag was
      set, then the quoted key and a colon; the flag is left set. */
  lemma KeyOutput(c: Cursor, name: seq<Byte>)
    requires c.Valid() && c.ptr + |KeyText(c.needKeySep, name)| <= c.End()
    ensures KeyAppend(c, name) == c.(needKeySep := true).Emit(KeyText(c.needKeySep, name))
  {
    var e := Escape(Visible(name, INT_MAX));
    var comma: seq<Byte> := if c.needKeySep then "," else "";
    var c1 := if c.needKeySep then CharAppend(c, ',') else c;
    if c.needKeySep {
      CharAppendEmits(c, ',');
    } else {
      EmitNothing(c);
    }
    var c2 := c1.(needKeySep := true);
    QuotedOutput(c2, name, INT_MAX);
    var q := QuotedStringLenAppend(c2, name, INT_MAX);
    assert q == c2.Emit([QUOTE] + e + [QUOTE]);
    CharAppendEmits(q, ':');
    EmitFlag(c, comma, true);
    EmitEmit(c.(needKeySep := true), comma, [QUOTE] + e + [QUOTE]);
    EmitEmit(c.(needKeySep := true), comma + ([QUOTE] + e + [QUOTE]), [':']);
  }

  /** The first key after json_start_object gets no comma, and a key after
      json_end_object or json_end_array gets one (lib/json/json.h:65-67). */
  lemma CommaPlacement(c: Cursor, name: seq<Byte>)
    requires c.Valid()
    ensures var o := StartObject(c);
            !o.Full() ==> KeyAppend(o, name).storage[o.ptr] == QUOTE
    ensures var e := EndObject(c);
            !e.Full() ==> KeyAppend(e, name).storage[e.ptr] == ','
    ensures var a := EndArray(c);
            !a.Full() ==> KeyAppend(a, name).storage[a.ptr] == ','
    ensures !Separator(c).needKeySep && !StartObject(c).needKeySep
    ensures StartArray(c).needKeySep == c.needKeySep
  {
  }

  // ---------------------------------------------------------------------
  // Named values

  /** The decimal text json_named_int32_append writes for `val` after the
      key: a `-` iff negative, then the `%u` digits of the magnitude. */
  function Int32Text(val: Int32): (t: seq<Byte>)
    ensures |t| >= 1 && (t[0] == '-' <==> val < 0)
    ensures AllDigits(if val < 0 then t[1..] else t)
  {
    (if val < 0 then "-" else "") + Digits(Abs(val))
  }

  /** The int32 text is the canonical decimal of the value: `-` iff
      negative, at least one digit, no leading zero, and it reads back as
      the magnitude (2^31 for INT32_MIN). */
  lemma Int32TextMeaning(val: Int32)
    ensures var t := Int32Text(val); var ds := if val < 0 then t[1..] else t;
            (t[0] == '-' <==> val < 0) && Canonical(ds) && ValueOf(ds) == Abs(val) &&
            |t| <= 11
  {
    var ds := Digits(Abs(val));
    DigitsValue(Abs(val));
    assert Abs(val) < 0x1_0000_0000;
    UInt32DigitsLength(Abs(val));
    if val < 0 {
      assert Int32Text(val)[1..] == ds;
    } else {
      assert Int32Text(val) == ds;
    }
  }

  lemma UInt32Output(c: Cursor, val: UInt32)
    requires c.Valid() && c.ptr + |Digits(val)| <= c.End()
    ensures UInt32Append(c, val) == c.Emit(Digits(val))
  {
    var ds := Digits(val);
    assert ds[..CharsCount(ds, |ds|)] == ds;
    PutAllFits(c, ds);
  }

  /** json_named_uint32_append: after the key, exactly the `%u` text when
      it fits. */
  lemma NamedUInt32Output(c: Cursor, name: seq<Byte>, val: UInt32)
    requires c.Valid()
    ensures var k := KeyAppend(c, name);
            k.ptr + |Digits(val)| <= k.End() ==> NamedUInt32Append(c, name, val) == k.Emit(Digits(val))
  {
    var k := KeyAppend(c, name);
    if k.ptr + |Digits(val)| <= k.End() {
      UInt32Output(k, val);
    }
  }

  /** json_named_int32_append: after the key, exactly the signed decimal
      text when it fits. */
  lemma NamedInt32Output(c: Cursor, name: seq<Byte>, val: Int32)
    requires c.Valid()
    ensures var k := KeyAppend(c, name);
            k.ptr + |Int32Text(val)| <= k.End() ==> NamedInt32Append(c, name, val) == k.Emit(Int32Text(val))
  {
    var k := KeyAppend(c, name);
    if k.ptr + |Int32Text(val)| <= k.End() {
      if val < 0 {
        var m: UInt32 := -(val as int);
        var k1 := CharAppend(k, '-');
        CharAppendEmits(k, '-');
        UInt32Output(k1, m);
        EmitEmit(k, "-", Digits(m));
      } else {
        UInt32Output(k, val);
        assert Int32Text(val) == Digits(val);
      }
    }
  }

  /** json_named_bool_append: the key, then `true` or `false`. */
  lemma NamedBoolOutput(c: Cursor, name: seq<Byte>, val: bool)
    requires c.Valid()
    ensures var k, t := KeyAppend(c, name), if val then TRUE_TEXT else FALSE_TEXT;
            k.ptr + |t| <= k.End() ==> NamedBoolAppend(c, name, val) == k.Emit(t)
  {
    var k := KeyAppend(c, name);
    var t := if val then TRUE_TEXT else FALSE_TEXT;
    if k.ptr + |t| <= k.End() {
      assert t[..|t|] == t;
      PutAllFits(k, t);
    }
  }

  /** json_named_fixedpoint_append: the key, then the fixed-point text. */
  lemma NamedFixedPointOutput(c: Cursor, name: seq<Byte>, number: Int32, places: UInt32)
    requires c.Valid() && 1 <= places <= 15
    ensures var k, t := KeyAppend(c, name), FixedPointText(number, places);
            k.ptr + |t| <= k.End() ==> NamedFixedPointAppend(c, name, number, places) == k.Emit(t)
  {
    var k := KeyAppend(c, name);
    var t := FixedPointText(number, places);
    if k.ptr + |t| <= k.End() {
      assert t[..|t|] == t;
      PutAllFits(k, t);
    }
  }

  /** json_named_string_append: the key, then the quoted, escaped text of
      the first `len` bytes (up to a NUL) when it fits. */
  lemma NamedStringOutput(c: Cursor, name: seq<Byte>, str: seq<Byte>, len: int)
    requires c.Valid()
    ensures var k, t := KeyAppend(c, name), [QUOTE] + Escape(Visible(str, len)) + [QUOTE];
            k.ptr + |t| <= k.End() ==> NamedStringAppend(c, name, str, len) == k.Emit(t)
  {
    QuotedOutput(KeyAppend(c, name), str, len);
  }

  /** json_named_cstring_append: the same with the whole C string. */
  lemma NamedCStringOutput(c: Cursor, name: seq<Byte>, str: seq<Byte>)
    requires c.Valid()
    ensures var k, t := KeyAppend(c, name), [QUOTE] + Escape(Visible(str, INT_MAX)) + [QUOTE];
            k.ptr + |t| <= k.End() ==> NamedCStringAppend(c, name, str) == k.Emit(t)
  {
    QuotedOutput(KeyAppend(c, name), str, INT_MAX);
  }

  /** json_named_chars_append: the key, then as many of the `len` bytes
      (or `strlen` bytes for a negative `len`) verbatim as fit before `end`;
      on a key that filled the buffer, nothing more. */
  lemma NamedCharsOutput(c: Cursor, name: seq<Byte>, str: seq<Byte>, len: int)
    requires c.Valid() && len <= |str|
    ensures var k, n := KeyAppend(c, name), if len < 0 then CStrLen(str) else len;
            (!k.Full() ==> NamedCharsAppend(c, name, str, len) == k.Emit(str[..Min(n, k.End() - k.ptr)])) &&
            (k.Full() ==> NamedCharsAppend(c, name, str, len) == k)
  {
    var k := KeyAppend(c, name);
    if !k.Full() {
      CharsAppendCopies(k, str, len);
    }
  }

  // ---------------------------------------------------------------------
  // Bookmarks

  /** json_offset after json_reset(o) is `o`; and after rewinding to a
      bookmark and writing `b` that fits, the terminated text is what
      preceded the bookmark followed by `b`: nothing written in between
      and since discarded shows. */
  lemma RewindDiscards(c: Cursor, d: Cursor, b: seq<Byte>)
    requires c.Valid() && Advances(c, d) && c.ptr + |b| <= c.End()
    ensures Reset(d, c.ptr).ptr == c.ptr
    ensures var t := Terminate(PutAll(Reset(d, c.ptr), b));
            t.1 == c.ptr + |b| && t.0.storage[..t.1] == c.storage[..c.ptr] + b &&
            t.0.storage[t.1] == NUL
  {
    var r := Reset(d, c.ptr);
    PutAllFits(r, b);
    EmitPrefix(r, b);
    AdvancesPrefix(c, d);
  }

  /** json_end_object and json_end_array set the flag even when the buffer
      is full and the closing byte is dropped (json_char_append_keysep,
      lib/json/json.c:43-48): after a rewind to an earlier offset `o`, the
      next key starts with a comma. */
  lemma CommaAfterDroppedClose(c: Cursor, name: seq<Byte>, o: nat)
    requires c.Valid() && c.Full() && o < c.End()
    ensures EndObject(c).storage == c.storage && EndArray(c).storage == c.storage
    ensures KeyAppend(Reset(EndObject(c), o), name).storage[o] == ','
    ensures KeyAppend(Reset(EndArray(c), o), name).storage[o] == ','
  {
  }

  /** The bytes an overflowing hex escape steps over stay inside the text
      json_terminate delimits: with three bytes left before `end`, the
      opening quote is written, the hex escape of byte 1 does not fit, the
      closing quote is dropped, and the length returned is `end`, so the two
      old bytes after the quote are part of the text (lib/json/json.c:52-61,
      108-114). */
  lemma StaleInsideTerminated(c: Cursor)
    requires c.Valid() && c.ptr + 3 == c.End()
    ensures var t := Terminate(QuotedStringLenAppend(c, ['\U{1}'], 1));
            t.1 == c.End() && t.0.storage[c.ptr] == QUOTE &&
            t.0.storage[c.ptr + 1..c.End()] == c.storage[c.ptr + 1..c.End()] &&
            t.0.storage[c.End()] == NUL
  {
    var c1 := CharAppend(c, QUOTE);
    assert QuoteLoop(c1, ['\U{1}'], 1) == QuoteLoop(EscapeStep(c1, '\U{1}'), [], 0);
  }

  // ---------------------------------------------------------------------
  // Examples

  /** `start_object; end_object` gives `{}`. */
  lemma EmptyObjectExample(storage: seq<Byte>)
    requires |storage| >= 3
    ensures var t := Terminate(EndObject(StartObject(InitBuffer(storage))));
            t.1 == 2 && t.0.storage[..2] == "{}" && t.0.storage[2] == NUL
  {
    var c := InitBuffer(storage);
    var o := StartObject(c);
    CharAppendEmits(c, '{');
    CharAppendEmits(o, '}');
    EmitEmit(c, "{", "}");
    assert "{" + "}" == "{}";
  }

  /** A key and a boolean value that fit are written as one text. */
  lemma NamedBoolPair(c: Cursor, name: seq<Byte>, val: bool)
    requires c.Valid()
    requires c.ptr + |KeyText(c.needKeySep, name)| + |if val then TRUE_TEXT else FALSE_TEXT| <= c.End()
    ensures NamedBoolAppend(c, name, val) ==
            c.(needKeySep := true).Emit(KeyText(c.needKeySep, name) + if val then TRUE_TEXT else FALSE_TEXT)
  {
    var t := if val then TRUE_TEXT else FALSE_TEXT;
    var kt := KeyText(c.needKeySep, name);
    KeyOutput(c, name);
    NamedBoolOutput(c, name, val);
    EmitEmit(c.(needKeySep := true), kt, t);
  }

  lemma EmitChain(c: Cursor, a: seq<Byte>, b: seq<Byte>, d: seq<Byte>, e: seq<Byte>)
    requires 0 <= c.ptr && c.ptr + |a| + |b| + |d| + |e| <= |c.storage|
    ensures c.Emit(a).Emit(b).Emit(d).Emit(e) == c.Emit(a + b + d + e)
  {
    EmitEmit(c, a, b);
    EmitEmit(c, a + b, d);
    EmitEmit(c, a + b + d, e);
  }

  const PAIR_A: seq<Byte> := "\"a\":true"
  const PAIR_B: seq<Byte> := ",\"b\":false"
  const OBJECT_TEXT: seq<Byte> := "{\"a\":true,\"b\":false}"

  lemma ExamplePairs()
    ensures KeyText(false, "a") + TRUE_TEXT == PAIR_A
    ensures KeyText(true, "b") + FALSE_TEXT == PAIR_B
  {
    assert Visible("a", INT_MAX) == "a";
    assert Escape("a") == "a";
    assert Visible("b", INT_MAX) == "b";
    assert Escape("b") == "b";
  }

  lemma ObjectTextParts()
    ensures ['{'] + PAIR_A + PAIR_B + ['}'] == OBJECT_TEXT
  {
  }

  /** The first pair of the object example. */
  lemma FirstPair(o: Cursor)
    requires o.Valid() && !o.needKeySep && o.ptr + 9 <= o.End()
    ensures NamedBoolAppend(o, "a", true) == o.(needKeySep := true).Emit(PAIR_A)
  {
    ExamplePairs();
    NamedBoolPair(o, "a", true);
  }

  /** The second pair, after the first: it starts with the comma. */
  lemma SecondPair(c: Cursor)
    requires c.Valid() && c.needKeySep && c.ptr + 10 <= c.End()
    ensures NamedBoolAppend(c, "b", false) == c.Emit(PAIR_B)
  {
    ExamplePairs();
    NamedBoolPair(c, "b", false);
  }

  /** The cursor after `start_object; "a": true; "b": false; end_object`. */
  lemma ObjectWrites(storage: seq<Byte>)
    requires |storage| >= 21
    ensures var c0 := InitBuffer(storage);
            var c1 := NamedBoolAppend(StartObject(c0), "a", true);
            EndObject(NamedBoolAppend(c1, "b", false)) == c0.(needKeySep := true).Emit(OBJECT_TEXT)
  {
    var c0 := InitBuffer(storage);
    var f := c0.(needKeySep := true);
    var o := StartObject(c0);
    CharAppendEmits(c0, '{');
    FirstPair(o);
    var c1 := NamedBoolAppend(o, "a", true);
    assert c1 == f.Emit(['{']).Emit(PAIR_A);
    SecondPair(c1);
    var c2 := NamedBoolAppend(c1, "b", false);
    CharAppendEmits(c2, '}');
    EmitChain(f, ['{'], PAIR_A, PAIR_B, ['}']);
    ObjectTextParts();
  }

  /** `start_object; "a": true; "b": false; end_object` on a buffer with
      room gives exactly `{"a":true,"b":false}`, with one comma. */
  lemma ObjectExample(storage: seq<Byte>)
    requires |storage| >= 21
    ensures var c0 := InitBuffer(storage);
            var c1 := NamedBoolAppend(StartObject(c0), "a", true);
            var c2 := EndObject(NamedBoolAppend(c1, "b", false));
            var t := Terminate(c2);
            t.1 == 20 && t.0.storage[..20] == OBJECT_TEXT && t.0.storage[20] == NUL
  {
    ObjectWrites(storage);
    var c3 := InitBuffer(storage).(needKeySep := true).Emit(OBJECT_TEXT);
    EmitPrefix(InitBuffer(storage).(needKeySep := true), OBJECT_TEXT);
  }
}
