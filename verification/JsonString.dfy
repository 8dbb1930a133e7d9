/** Writing a UTF-8 byte stream as a JSON string (WriteJsonStringBytes in
    common/json.go), against a reader for the string grammar of section 7 of
    RFC 8259. */
module JsonString {
  import opened Common

  const QUOTE: Byte := 0x22
  const BACKSLASH: Byte := 0x5C

  // ---- The writer's specification -----------------------------------------------

  const HEX: Bytes := [0x30, 0x31, 0x32, 0x33, 0x34, 0x35, 0x36, 0x37, 0x38, 0x39, 0x61, 0x62, 0x63, 0x64, 0x65, 0x66]

  /** The escape of one byte; empty when the byte stands for itself. */
  function Escape(b: Byte): (e: Bytes) {
    if b == BACKSLASH then [BACKSLASH, BACKSLASH]
    else if b == QUOTE then [BACKSLASH, QUOTE]
    else if b == 0x08 then [BACKSLASH, 0x62]
    else if b == 0x0C then [BACKSLASH, 0x66]
    else if b == 0x0A then [BACKSLASH, 0x6E]
    else if b == 0x0D then [BACKSLASH, 0x72]
    else if b == 0x09 then [BACKSLASH, 0x74]
    else if b < 0x20 then [BACKSLASH, 0x75, 0x30, 0x30, HEX[b / 16], HEX[b % 16]]
    else []
  }

  /** The bytes that stand for themselves. */
  predicate Plain(b: Byte) {
    b >= 0x20 && b != QUOTE && b != BACKSLASH
  }

  lemma PlainIff(b: Byte)
    ensures Escape(b) == [] <==> Plain(b)
  {
  }

  /** The form of every escape: bytes from 0x20 on stand for themselves but for the
      quote and the backslash; those two and the five controls that have a letter
      take two bytes, the other controls six, with lower-case digits. */
  lemma EscapeForms(b: Byte)
    ensures b >= 0x20 && b != 0x22 && b != 0x5C ==> Written(b) == [b]
    ensures b == 0x22 || b == 0x5C ==> Written(b) == [0x5C, b]
    ensures b in {0x08, 0x09, 0x0A, 0x0C, 0x0D} ==> |Written(b)| == 2 && Written(b)[0] == 0x5C && 0x61 <= Written(b)[1] <= 0x7A
    ensures b < 0x20 && b !in {0x08, 0x09, 0x0A, 0x0C, 0x0D} ==>
      && |Written(b)| == 6 && Written(b)[..4] == [0x5C, 0x75, 0x30, 0x30]
      && forall i :: 4 <= i < 6 ==> 0x30 <= Written(b)[i] <= 0x39 || 0x61 <= Written(b)[i] <= 0x66
  {
  }

  function Written(b: Byte): (e: Bytes) {
    if Escape(b) == [] then [b] else Escape(b)
  }

  function Escaped(data: Bytes): (r: Bytes) {
    if data == [] then [] else Written(data[0]) + Escaped(data[1..])
  }

  function Quoted(data: Bytes): (r: Bytes) {
    [QUOTE] + Escaped(data) + [QUOTE]
  }

  lemma {:induction false} EscapedConcat(a: Bytes, b: Bytes)
    ensures Escaped(a + b) == Escaped(a) + Escaped(b)
  {
    if a == [] {
      assert a + b == b;
    } else {
      assert (a + b)[1..] == a[1..] + b;
      EscapedConcat(a[1..], b);
    }
  }

  lemma {:induction false} EscapedPlain(data: Bytes)
    requires forall i :: 0 <= i < |data| ==> Plain(data[i])
    ensures Escaped(data) == data
  {
    if data == [] {
    } else {
      PlainIff(data[0]);
      EscapedPlain(data[1..]);
      assert [data[0]] + data[1..] == data;
    }
  }

  // ---- The writer ------------------------------------------------------------------

  /** An output that can take a limited number of bytes and then fails. */
  class Sink {
    var out: Bytes
    var room: nat

    constructor (room: nat)
      ensures out == [] && this.room == room
    {
      out := [];
      this.room := room;
    }

    method Write(p: Bytes) returns (ok: bool)
      modifies this
      ensures out == old(out) + First(p, old(room))
      ensures ok <==> |p| <= old(room)
      ensures room == if ok then old(room) - |p| else 0
    {
      if |p| <= room {
        out, room := out + p, room - |p|;
        return true;
      }
      out, room := out + p[..room], 0;
      return false;
    }
  }

  lemma EscapedOne(b: Byte)
    ensures Escaped([b]) == Written(b)
  {
    assert [b][1..] == [];
  }

  /** The output text up to and including the k-th input byte. */
  function Upto(data: Bytes, k: nat): (r: Bytes)
    requires k <= |data|
  {
    [QUOTE] + Escaped(data[..k])
  }

  lemma Bracketed(a: Bytes, b: Bytes)
    ensures [QUOTE] + (a + b) + [QUOTE] == ([QUOTE] + a) + (b + [QUOTE])
  {
  }

  lemma UptoIsPrefix(data: Bytes, k: nat)
    requires k <= |data|
    ensures Upto(data, k) <= Quoted(data)
    ensures k == |data| ==> Upto(data, k) + [QUOTE] == Quoted(data)
  {
    var left, right := data[..k], data[k..];
    assert data == left + right;
    EscapedConcat(left, right);
    Bracketed(Escaped(left), Escaped(right));
    if k == |data| {
      assert left == data;
    }
  }

  /** A flushed chunk of plain bytes... */
  lemma UptoChunk(data: Bytes, start: nat, index: nat)
    requires start <= index <= |data|
    requires forall i :: start <= i < index ==> Plain(data[i])
    ensures Upto(data, start) + data[start..index] == Upto(data, index)
  {
    var chunk := data[start..index];
    EscapedPlain(chunk);
    assert data[..index] == data[..start] + chunk;
    EscapedConcat(data[..start], chunk);
    Associative([QUOTE], Escaped(data[..start]), chunk);
  }

  /** ...and an escape continue the output text. */
  lemma UptoEscape(data: Bytes, index: nat)
    requires index < |data| && !Plain(data[index])
    ensures Upto(data, index) + Escape(data[index]) == Upto(data, index + 1)
  {
    assert data[..index + 1] == data[..index] + [data[index]];
    EscapedConcat(data[..index], [data[index]]);
    EscapedOne(data[index]);
    PlainIff(data[index]);
    Associative([QUOTE], Escaped(data[..index]), Escape(data[index]));
  }

  /** A plain chunk and the escape after it, or the closing quote after the last. */
  lemma UptoFlush(data: Bytes, start: nat, index: nat)
    requires start <= index <= |data| && (index < |data| ==> !Plain(data[index]))
    requires forall i :: start <= i < index ==> Plain(data[i])
    ensures index < |data| ==> Upto(data, start) + data[start..index] + Escape(data[index]) == Upto(data, index + 1) <= Quoted(data)
    ensures index == |data| ==> Upto(data, start) + data[start..index] + [QUOTE] == Quoted(data)
  {
    UptoChunk(data, start, index);
    if index < |data| {
      UptoEscape(data, index);
      UptoIsPrefix(data, index + 1);
    } else {
      UptoIsPrefix(data, index);
    }
  }

  /** The sink has taken `done` since it held `before` and had `room` left. */
  ghost predicate Holds(sink: Sink, before: Bytes, room: nat, done: Bytes)
    reads sink
  {
    |done| <= room && sink.out == before + done && sink.room == room - |done|
  }

  /** Writes the next part of a known text; on success the sink holds that much
      more of it, on failure as much of the whole text as fits. */
  method Emit(sink: Sink, ghost before: Bytes, ghost room: nat, ghost done: Bytes, part: Bytes, ghost all: Bytes) returns (ok: bool)
    requires Holds(sink, before, room, done) && done + part <= all
    modifies sink
    ensures ok <==> |done| + |part| <= room
    ensures ok ==> Holds(sink, before, room, done + part)
    ensures !ok ==> sink.out == before + First(all, room)
  {
    ok := sink.Write(part);
    if ok {
      assert before + done + part == before + (done + part);
    } else {
      assert First(all, room) == all[..room] == (done + part)[..room] == done + part[..room - |done|];
    }
  }

  /** A chunk, unless it is empty, and then another part. */
  method EmitTwo(sink: Sink, ghost before: Bytes, ghost room: nat, ghost done: Bytes, chunk: Bytes, part: Bytes, ghost all: Bytes) returns (ok: bool)
    requires Holds(sink, before, room, done) && done + chunk + part <= all
    modifies sink
    ensures ok <==> |done| + |chunk| + |part| <= room
    ensures ok ==> Holds(sink, before, room, done + chunk + part)
    ensures !ok ==> sink.out == before + First(all, room)
  {
    if |chunk| > 0 {
      assert done + chunk <= all;
      ok := Emit(sink, before, room, done, chunk, all);
      if !ok { return; }
    } else {
      assert done + chunk == done;
    }
    ok := Emit(sink, before, room, done + chunk, part, all);
  }

  /** The chunk-flushing loop: the quoted text comes out, or the longest prefix
      of it that the output takes. */
  method WriteQuoted(sink: Sink, data: Bytes) returns (ok: bool)
    modifies sink
    ensures sink.out == old(sink.out) + First(Quoted(data), old(sink.room))
    ensures ok <==> |Quoted(data)| <= old(sink.room)
  {
    ghost var before, room := sink.out, sink.room;
    UptoIsPrefix(data, 0);
    assert data[..0] == [] && [] + [QUOTE] == Upto(data, 0);
    ok := Emit(sink, before, room, [], [QUOTE], Quoted(data));
    if !ok { return; }
    var start := 0;
    for index := 0 to |data|
      invariant start <= index && Holds(sink, before, room, Upto(data, start))
      invariant forall i :: start <= i < index ==> Plain(data[i])
    {
      PlainIff(data[index]);
      var escaped := Escape(data[index]);
      if escaped == [] { continue; }
      UptoFlush(data, start, index);
      ok := EmitTwo(sink, before, room, Upto(data, start), data[start..index], escaped, Quoted(data));
      if !ok { return; }
      start := index + 1;
    }
    UptoFlush(data, start, |data|);
    ok := EmitTwo(sink, before, room, Upto(data, start), data[start..|data|], [QUOTE], Quoted(data));
  }

  datatype Outcome = Complete | InvalidUtf8 | WriteFailed

  /** Invalid UTF-8 is refused before anything is written. */
  method WriteJsonStringBytes(sink: Sink, data: Bytes) returns (r: Outcome)
    modifies sink
    ensures r == InvalidUtf8 <==> !Utf8Valid(data)
    ensures r == InvalidUtf8 ==> sink.out == old(sink.out)
    ensures r != InvalidUtf8 ==> sink.out == old(sink.out) + First(Quoted(data), old(sink.room))
    ensures r == Complete <==> Utf8Valid(data) && |Quoted(data)| <= old(sink.room)
  {
    var valid := Utf8Valid(data);
    if !valid { return InvalidUtf8; }
    var ok := WriteQuoted(sink, data);
    r := if ok then Complete else WriteFailed;
  }

  // ---- UTF-8 (RFC 3629) ---------------------------------------------------------------

  predicate Cont(b: Byte) { 0x80 <= b < 0xC0 }

  /** Length of the well-formed sequence at the front, 0 if there is none. */
  function LeadLength(s: Bytes): (n: nat)
    ensures n <= |s|
  {
    if s == [] then 0
    else if s[0] < 0x80 then 1
    else if 0xC2 <= s[0] < 0xE0 && |s| >= 2 && Cont(s[1]) then 2
    else if 0xE0 <= s[0] < 0xF0 && |s| >= 3 && Cont(s[1]) && Cont(s[2]) && (s[0] == 0xE0 ==> s[1] >= 0xA0) && (s[0] == 0xED ==> s[1] < 0xA0) then 3
    else if 0xF0 <= s[0] < 0xF5 && |s| >= 4 && Cont(s[1]) && Cont(s[2]) && Cont(s[3]) && (s[0] == 0xF0 ==> s[1] >= 0x90) && (s[0] == 0xF4 ==> s[1] < 0x90) then 4
    else 0
  }

  predicate Utf8Valid(s: Bytes)
    decreases |s|
  {
    s == [] || (LeadLength(s) > 0 && Utf8Valid(s[LeadLength(s)..]))
  }

  // ---- The reader -----------------------------------------------------------------------

  function HexValue(b: Byte): (r: Option<int>)
    ensures r.Some? ==> 0 <= r.value < 16
  {
    if 0x30 <= b <= 0x39 then Some(b - 0x30)
    else if 0x61 <= b <= 0x66 then Some(b - 0x61 + 10)
    else if 0x41 <= b <= 0x46 then Some(b - 0x41 + 10)
    else None
  }

  /** The four hexadecimal digits after a "\u". */
  function CodeUnit(s: Bytes): (r: Option<int>)
    ensures r.Some? ==> 0 <= r.value < 0x10000 && |s| >= 6
  {
    if |s| < 6 || s[0] != BACKSLASH || s[1] != 0x75 then None
    else
      var a, b, c, d := HexValue(s[2]), HexValue(s[3]), HexValue(s[4]), HexValue(s[5]);
      if a.Some? && b.Some? && c.Some? && d.Some? then Some(4096 * a.value + 256 * b.value + 16 * c.value + d.value) else None
  }

  function Utf8(code: int): Bytes
    requires 0 <= code < 0x110000
  {
    if code < 0x80 then [code]
    else if code < 0x800 then [0xC0 + code / 64, 0x80 + code % 64]
    else if code < 0x10000 then [0xE0 + code / 4096, 0x80 + code / 64 % 64, 0x80 + code % 64]
    else [0xF0 + code / 262144, 0x80 + code / 4096 % 64, 0x80 + code / 64 % 64, 0x80 + code % 64]
  }

  /** The character that a two-byte escape stands for. */
  function Short(b: Byte): Option<Byte> {
    if b == QUOTE || b == BACKSLASH || b == 0x2F then Some(b)
    else if b == 0x62 then Some(0x08)
    else if b == 0x66 then Some(0x0C)
    else if b == 0x6E then Some(0x0A)
    else if b == 0x72 then Some(0x0D)
    else if b == 0x74 then Some(0x09)
    else None
  }

  /** One character of a string: its bytes, and how much text it took. */
  function ReadChar(s: Bytes): (r: Option<(Bytes, nat)>)
    ensures r.Some? ==> 1 <= r.value.1 <= |s|
  {
    if s == [] || s[0] < 0x20 || s[0] == QUOTE then None
    else if s[0] != BACKSLASH then Some(([s[0]], 1))
    else if |s| < 2 then None
    else if s[1] != 0x75 then (if Short(s[1]).Some? then Some(([Short(s[1]).value], 2)) else None)
    else
      var high := CodeUnit(s);
      if high.None? then None
      else if high.value < 0xD800 || high.value >= 0xE000 then Some((Utf8(high.value), 6))
      else
        var low := CodeUnit(s[6..]);
        if high.value < 0xDC00 && low.Some? && 0xDC00 <= low.value < 0xE000
        then Some((Utf8(0x10000 + (high.value - 0xD800) * 1024 + (low.value - 0xDC00)), 12))
        else None
  }

  /** Everything up to the closing quote, which must be the last byte. */
  function ReadChars(s: Bytes): (r: Option<Bytes>)
    decreases |s|
  {
    if s == [QUOTE] then Some([])
    else
      var one := ReadChar(s);
      if one.None? then None
      else
        var rest := ReadChars(s[one.value.1..]);
        if rest.None? then None else Some(one.value.0 + rest.value)
  }

  function ReadString(s: Bytes): (r: Option<Bytes>) {
    if s == [] || s[0] != QUOTE then None else ReadChars(s[1..])
  }

  // ---- Round trip --------------------------------------------------------------------------

  lemma ReadWritten(b: Byte, rest: Bytes)
    ensures ReadChar(Written(b) + rest) == Some(([b], |Written(b)|))
  {
    PlainIff(b);
    if b < 0x20 && |Escape(b)| == 6 {
      ReadUnicode(b, Written(b) + rest);
    }
  }

  lemma ReadUnicode(b: Byte, s: Bytes)
    requires b < 0x20 && |s| >= 6
    requires s[0] == BACKSLASH && s[1] == 0x75 && s[2] == 0x30 && s[3] == 0x30 && s[4] == HEX[b / 16] && s[5] == HEX[b % 16]
    ensures ReadChar(s) == Some(([b], 6))
  {
    assert HexValue(HEX[b / 16]) == Some(b / 16) && HexValue(HEX[b % 16]) == Some(b % 16);
    assert CodeUnit(s) == Some(b);
  }

  /** Reading back what was written gives the bytes that were to be written, for
      every byte sequence. */
  lemma RoundTrip(data: Bytes)
    ensures ReadString(Quoted(data)) == Some(data)
  {
    CharsRoundTrip(data);
    var text := Escaped(data) + [QUOTE];
    assert Quoted(data) == [QUOTE] + text;
    assert ([QUOTE] + text)[1..] == text;
  }

  lemma {:induction false} CharsRoundTrip(data: Bytes)
    ensures ReadChars(Escaped(data) + [QUOTE]) == Some(data)
  {
    if data == [] {
      assert Escaped(data) + [QUOTE] == [QUOTE];
    } else {
      var rest := Escaped(data[1..]) + [QUOTE];
      var s := Escaped(data) + [QUOTE];
      assert s == Written(data[0]) + rest;
      ReadWritten(data[0], rest);
      assert s[|Written(data[0])|..] == rest;
      CharsRoundTrip(data[1..]);
      assert [data[0]] + data[1..] == data;
      assert rest != [] && |s| > 1;
    }
  }

  /** No control byte is ever written raw. */
  lemma NoRawControl(data: Bytes)
    ensures forall i :: 0 <= i < |Quoted(data)| ==> Quoted(data)[i] >= 0x20
  {
    EscapedNoControl(data);
  }

  lemma {:induction false} EscapedNoControl(data: Bytes)
    ensures forall i :: 0 <= i < |Escaped(data)| ==> Escaped(data)[i] >= 0x20
  {
    if data == [] {
    } else {
      EscapedNoControl(data[1..]);
      var w := Written(data[0]);
      assert forall i :: 0 <= i < |w| ==> w[i] >= 0x20;
    }
  }

  // ---- The output is UTF-8 again --------------------------------------------------------------

  lemma {:induction false} AsciiPrefix(a: Bytes, s: Bytes)
    requires forall i :: 0 <= i < |a| ==> a[i] < 0x80
    ensures Utf8Valid(a + s) <==> Utf8Valid(s)
  {
    if a == [] {
      assert a + s == s;
    } else {
      assert (a + s)[1..] == a[1..] + s;
      AsciiPrefix(a[1..], s);
    }
  }

  lemma HighBytesStand(lead: Bytes)
    requires forall i :: 0 <= i < |lead| ==> lead[i] >= 0x80
    ensures Escaped(lead) == lead
  {
    EscapedPlain(lead);
  }

  /** Escaping turns valid UTF-8 into valid UTF-8, so the string is a JSON text. */
  lemma {:induction false} EscapedStaysUtf8(data: Bytes, tail: Bytes)
    requires Utf8Valid(data) && Utf8Valid(tail)
    ensures Utf8Valid(Escaped(data) + tail)
    decreases |data|
  {
    if data == [] {
      assert Escaped(data) + tail == tail;
    } else {
      var n := LeadLength(data);
      EscapedStaysUtf8(data[n..], tail);
      LeadStaysUtf8(data, Escaped(data[n..]) + tail);
      SplitEscaped(data, n, tail);
    }
  }

  lemma SplitEscaped(data: Bytes, n: nat, tail: Bytes)
    requires n <= |data|
    ensures Escaped(data) + tail == Escaped(data[..n]) + (Escaped(data[n..]) + tail)
  {
    var lead, rest := data[..n], data[n..];
    assert data == lead + rest;
    EscapedConcat(lead, rest);
    Associative(Escaped(lead), Escaped(rest), tail);
  }

  lemma Associative(a: Bytes, b: Bytes, c: Bytes)
    ensures (a + b) + c == a + (b + c)
  {
  }

  lemma LeadStaysUtf8(data: Bytes, after: Bytes)
    requires LeadLength(data) > 0 && Utf8Valid(after)
    ensures Utf8Valid(Escaped(data[..LeadLength(data)]) + after)
  {
    var n := LeadLength(data);
    var lead := data[..n];
    if n == 1 {
      assert lead == [data[0]];
      EscapedOne(data[0]);
      AsciiWritten(data[0]);
      AsciiPrefix(Written(data[0]), after);
    } else {
      LeadIsHigh(data);
      HighBytesStand(lead);
      LeadPrefix(data, after);
    }
  }

  lemma AsciiWritten(b: Byte)
    requires b < 0x80
    ensures forall i :: 0 <= i < |Written(b)| ==> Written(b)[i] < 0x80
  {
  }

  lemma LeadIsHigh(data: Bytes)
    requires LeadLength(data) > 1
    ensures forall i :: 0 <= i < LeadLength(data) ==> data[i] >= 0x80
  {
  }

  /** A well-formed sequence stays one whatever follows it. */
  lemma LeadPrefix(data: Bytes, after: Bytes)
    requires LeadLength(data) > 0 && Utf8Valid(after)
    ensures Utf8Valid(data[..LeadLength(data)] + after)
  {
    var n := LeadLength(data);
    var s := data[..n] + after;
    assert forall i :: 0 <= i < n ==> s[i] == data[i];
    assert LeadLength(s) == n && s[n..] == after;
  }

  lemma QuotedStaysUtf8(data: Bytes)
    requires Utf8Valid(data)
    ensures Utf8Valid(Quoted(data))
  {
    AsciiPrefix([QUOTE], []);
    EscapedStaysUtf8(data, [QUOTE]);
    AsciiPrefix([QUOTE], Escaped(data) + [QUOTE]);
    assert Quoted(data) == [QUOTE] + (Escaped(data) + [QUOTE]);
  }
}
