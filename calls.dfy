/** Any sequence of append calls of the writer API, and what holds after
    all of them: the cursor only moves forward and at most three past
    `end`, the text written before stays, and once the buffer is full no
    later call changes a byte or the cursor (lib/json/json.h:70). */
module Calls {
  import opened Bytes
  import opened Writer

  /** One append call of lib/json/json.c and lib/json/json.h:64-68.
      json_reset and json_terminate are not appends and are not here. */
  datatype Call =
    | Char(ch: Byte)
    | CharKeySep(ch: Byte, keysep: bool)
    | Chars(str: seq<Byte>, len: int)
    | StartArray
    | EndArray
    | StartObject
    | EndObject
    | Separator
    | Key(name: seq<Byte>)
    | NamedUInt32(name: seq<Byte>, u: UInt32)
    | NamedInt32(name: seq<Byte>, i: Int32)
    | NamedString(name: seq<Byte>, str: seq<Byte>, len: int)
    | NamedCString(name: seq<Byte>, str: seq<Byte>)
    | NamedChars(name: seq<Byte>, str: seq<Byte>, len: int)
    | NamedBool(name: seq<Byte>, b: bool)
    | NamedFixedPoint(name: seq<Byte>, number: Int32, places: UInt32)

  /** What the C functions demand of their arguments: an explicit length
      within the string, `places` within 1..15. */
  predicate Allowed(call: Call)
  {
    match call
    case Chars(str, len) => len <= |str|
    case NamedChars(_, str, len) => len <= |str|
    case NamedFixedPoint(_, _, places) => 1 <= places <= 15
    case _ => true
  }

  function Apply(c: Cursor, call: Call): (r: Cursor)
    requires c.Valid() && Allowed(call)
    ensures r.Valid() && Advances(c, r)
  {
    match call
    case Char(ch) => CharAppend(c, ch)
    case CharKeySep(ch, keysep) => CharAppendKeySep(c, ch, keysep)
    case Chars(str, len) => CharsAppend(c, str, len)
    case StartArray => Writer.StartArray(c)
    case EndArray => Writer.EndArray(c)
    case StartObject => Writer.StartObject(c)
    case EndObject => Writer.EndObject(c)
    case Separator => Writer.Separator(c)
    case Key(name) => KeyAppend(c, name)
    case NamedUInt32(name, u) => NamedUInt32Append(c, name, u)
    case NamedInt32(name, i) => NamedInt32Append(c, name, i)
    case NamedString(name, str, len) => NamedStringAppend(c, name, str, len)
    case NamedCString(name, str) => NamedCStringAppend(c, name, str)
    case NamedChars(name, str, len) => NamedCharsAppend(c, name, str, len)
    case NamedBool(name, b) => NamedBoolAppend(c, name, b)
    case NamedFixedPoint(name, number, places) => NamedFixedPointAppend(c, name, number, places)
  }

  /** The calls in order. */
  function Run(c: Cursor, calls: seq<Call>): (r: Cursor)
    requires c.Valid() && forall k :: 0 <= k < |calls| ==> Allowed(calls[k])
    ensures r.Valid()
    decreases |calls|
  {
    if calls == [] then c else Run(Apply(c, calls[0]), calls[1..])
  }

  lemma AdvancesTransitive(a: Cursor, b: Cursor, d: Cursor)
    requires a.Valid() && Advances(a, b) && Advances(b, d)
    ensures Advances(a, d)
  {
  }

  /** Every sequence of appends keeps the invariant of a single one. */
  lemma {:induction false} RunAdvances(c: Cursor, calls: seq<Call>)
    requires c.Valid() && forall k :: 0 <= k < |calls| ==> Allowed(calls[k])
    ensures Advances(c, Run(c, calls))
    decreases |calls|
  {
    if calls == [] {
    } else {
      var c1 := Apply(c, calls[0]);
      RunAdvances(c1, calls[1..]);
      AdvancesTransitive(c, c1, Run(c1, calls[1..]));
    }
  }

  /** Once full, always full and frozen: whatever is appended afterwards,
      the bytes and the cursor stay as they are. */
  lemma FullIsFinal(c: Cursor, calls: seq<Call>)
    requires c.Valid() && c.Full() && forall k :: 0 <= k < |calls| ==> Allowed(calls[k])
    ensures Run(c, calls).storage == c.storage && Run(c, calls).ptr == c.ptr
  {
    RunAdvances(c, calls);
  }

  /** After any appends on a fresh buffer, json_terminate returns a length
      of at most `len - 1` with the NUL right after the text. */
  lemma TerminatedAfterRun(storage: seq<Byte>, calls: seq<Call>)
    requires 1 <= |storage| && forall k :: 0 <= k < |calls| ==> Allowed(calls[k])
    ensures var t := Terminate(Run(InitBuffer(storage), calls));
            0 <= t.1 <= |storage| - 1 && t.0.storage[t.1] == NUL && |t.0.storage| == |storage|
  {
    RunAdvances(InitBuffer(storage), calls);
  }
}
