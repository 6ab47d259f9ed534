/** The reader of the YAML parser: bytes come in chunks of any size, are decoded and put into a buffer as UTF-8. */
module YamlReader {
  import opened Options
  import opened Ordering
  import opened Unicode

  const RAW_SIZE := 16384
  const BUFFER_SIZE := RAW_SIZE * 3
  const MAX_LENGTH := 6000

  // ---- What an input means ----

  /** The encoding of an input and the length of its byte order mark. */
  function Detect(input: Bytes): (Encoding, nat) {
    if |input| >= 2 && input[..2] == [0xFF, 0xFE] then (Utf16(true), 2)
    else if |input| >= 2 && input[..2] == [0xFE, 0xFF] then (Utf16(false), 2)
    else if |input| >= 3 && input[..3] == [0xEF, 0xBB, 0xBF] then (Utf8, 3)
    else (Utf8, 0)
  }

  function InputText(input: Bytes): Text {
    var (e, n) := Detect(input);
    TextOf(e, input[n..])
  }

  /** Three bytes are enough to tell. */
  lemma {:induction false} DetectSoon(a: Bytes, b: Bytes)
    requires |a| >= 3 || b == []
    ensures Detect(a + b) == Detect(a)
  {
    if b == [] {
      assert a + b == a;
    } else {
      assert (a + b)[..2] == a[..2] && (a + b)[..3] == a[..3];
    }
  }

  // ---- Decoding ----

  /** What has been decoded and what the rest of the input holds make up the text. */
  ghost predicate Reading(text: Text, out: seq<nat>, rest: Text) {
    text == Text(out + rest.chars, rest.good)
  }

  lemma {:induction false} ReadingOne(text: Text, out: seq<nat>, v: nat, rest: Text)
    requires Reading(text, out, Text([v] + rest.chars, rest.good))
    ensures Reading(text, out + [v], rest)
  {
    assert out + ([v] + rest.chars) == out + [v] + rest.chars;
  }

  /** A character at the front of the raw bytes is the next one of the text. */
  lemma {:induction false} NextChar(e: Encoding, text: Text, out: seq<nat>, a: Bytes, b: Bytes, v: nat, w: nat)
    requires a != [] && Reading(text, out, TextOf(e, a + b)) && Decode(e, a) == Char(v, w)
    ensures 1 <= w <= |a| && Allowed(v) && Reading(text, out + [v], TextOf(e, a[w..] + b))
  {
    DecodeWidth(e, a);
    DecodeMore(e, a, b);
    assert (a + b)[w..] == a[w..] + b;
    var rest := TextOf(e, a[w..] + b);
    TextStep(e, a + b, v, w, rest);
    ReadingOne(text, out, v, rest);
  }

  /** A mistake at the front of the raw bytes ends the text. */
  lemma {:induction false} NoChar(e: Encoding, text: Text, out: seq<nat>, a: Bytes, b: Bytes)
    requires a != [] && Reading(text, out, TextOf(e, a + b))
    requires Decode(e, a) == Bad || (Decode(e, a) == More && b == [])
    ensures text == Text(out, false)
  {
    if b == [] {
      assert a + b == a;
    } else {
      DecodeMore(e, a, b);
    }
    assert out + [] == out;
  }

  /** Decoded text takes at most three bytes for two. */
  lemma {:induction false} Expansion(e: Encoding, s: Bytes)
    requires s != [] && Decode(e, s).Char?
    ensures var d := Decode(e, s); d.value <= 0x10_FFFF && 2 * |EncodeUtf8(d.value)| <= 3 * d.width
  {
    if e.Utf8? {
      DecodedEncodes(s);
    }
  }

  /** Undecided bytes are few. */
  lemma {:induction false} FewUndecided(e: Encoding, s: Bytes)
    requires s != [] && Decode(e, s) == More
    ensures |s| < 4
  {}

  lemma {:induction false} Utf8Length(cs: seq<nat>)
    requires AllAllowed(cs)
    ensures |cs| <= |Utf8Of(cs)| <= 4 * |cs|
    decreases |cs|
  {
    if cs != [] {
      assert Allowed(cs[0]);
      Utf8Length(cs[1..]);
    }
  }

  lemma {:induction false} Regroup(a: Bytes, b: Bytes, c: Bytes)
    ensures a + (b + c) == a + b + c
  {}

  lemma {:induction false} Utf8Snoc(cs: seq<nat>, v: nat, b: Bytes)
    requires AllAllowed(cs) && Allowed(v) && b == EncodeUtf8(v)
    ensures AllAllowed(cs + [v]) && Utf8Of(cs + [v]) == Utf8Of(cs) + b
    decreases |cs|
  {
    if cs == [] {
      assert [] + [v] == [v] + [];
      Utf8Step(v, []);
    } else {
      var c, more := cs[0], cs[1..];
      assert Allowed(c);
      Utf8Snoc(more, v, b);
      assert cs == [c] + more && cs + [v] == [c] + (more + [v]);
      Utf8Step(c, more);
      Utf8Step(c, more + [v]);
      Regroup(EncodeUtf8(c), Utf8Of(more), b);
    }
  }

  /** memmove to the front of a buffer. */
  method MoveDown(a: array<Byte>, from: nat, to: nat)
    requires from <= to <= a.Length
    modifies a
    ensures a[0..to - from] == old(a[from..to])
  {
    ghost var s := a[from..to];
    for k := 0 to to - from
      invariant a[0..k] == s[..k] && a[from + k..to] == s[k..]
    {
      assert a[from + k] == a[from + k..to][0] == s[k..][0] == s[k];
      assert a[from + k + 1..to] == a[from + k..to][1..] == s[k + 1..];
      a[k] := a[from + k];
    }
  }

  datatype Trouble = NoTrouble | InputError | BadInput

  class Reader {
    const raw: array<Byte>
    var rawPos: nat
    var rawLast: nat
    var eof: bool
    var rest: Bytes                  // what the read handler has not delivered yet
    var encoding: Option<Encoding>
    const buffer: array<Byte>
    var pos: nat
    var last: nat
    var unread: nat
    var error: Trouble

    constructor (input: Bytes)
      ensures Valid(input, [], [], false) && fresh(raw) && fresh(buffer)
    {
      raw, buffer := new Byte[RAW_SIZE], new Byte[BUFFER_SIZE];
      rawPos, rawLast, eof, rest, encoding := 0, 0, false, input, None;
      pos, last, unread, error := 0, 0, 0, NoTrouble;
      new;
      assert Raw() + rest == input;
    }

    ghost predicate Buffers()
      reads this
    {
      && raw.Length == RAW_SIZE && buffer.Length == BUFFER_SIZE && raw != buffer
      && rawPos <= rawLast <= raw.Length && pos <= last <= buffer.Length && (eof ==> rest == [])
    }

    ghost function Raw(): Bytes
      requires Buffers()
      reads this, raw
    {
      raw[rawPos..rawLast]
    }

    /** The buffer holds what is waiting, and a NUL at the end of the input. */
    ghost predicate Holds(waiting: seq<nat>, ended: bool)
      requires Buffers()
      reads this, buffer
    {
      && AllAllowed(waiting) && buffer[pos..last] == Utf8Of(waiting) + (if ended then [0] else [])
      && unread == |waiting| + if ended then 1 else 0
    }

    /** Between calls: `taken` are the characters that the scanner has taken, `waiting` those that it can see. */
    ghost predicate Valid(input: Bytes, taken: seq<nat>, waiting: seq<nat>, ended: bool)
      reads this, raw, buffer
    {
      && Buffers() && Holds(waiting, ended) && (eof <==> ended) && error == NoTrouble
      && match encoding
         case None => taken == [] && waiting == [] && !ended && Raw() + rest == input
         case Some(e) =>
           && e == Detect(input).0 && Reading(InputText(input), taken + waiting, TextOf(e, Raw() + rest))
           && (ended ==> Raw() + rest == [])
    }

    // ---- The raw buffer ----

    /** The read handler delivers some of the rest, and nothing only at the end; or it fails. */
    method ReadHandler() returns (ok: bool, size: nat)
      requires Buffers() && rawLast < raw.Length
      modifies raw, this`rest
      ensures ok ==> size <= |old(rest)| && rawLast + size <= raw.Length && rest == old(rest)[size..]
      ensures ok ==> raw[..rawLast] == old(raw[..rawLast]) && raw[rawLast..rawLast + size] == old(rest)[..size]
      ensures ok ==> (size == 0 <==> old(rest) == [])
      ensures !ok ==> rest == old(rest)
    {
      ok := *;
      size := 0;
      if !ok || rest == [] {
        return;
      }
      size :| 1 <= size <= |rest| && rawLast + size <= raw.Length;
      for k := 0 to size
        invariant raw[..rawLast] == old(raw[..rawLast]) && raw[rawLast..rawLast + k] == rest[..k]
        invariant rest == old(rest)
        modifies raw
      {
        raw[rawLast + k] := rest[k];
      }
      rest := rest[size..];
    }

    /** The unread raw bytes move to the front. */
    method MoveRaw()
      requires Buffers()
      modifies this`rawPos, this`rawLast, raw
      ensures Buffers() && rawPos == 0 && Raw() == old(Raw())
    {
      MoveDown(raw, rawPos, rawLast);
      rawPos, rawLast := 0, rawLast - rawPos;
    }

    /** More bytes come behind those in the raw buffer, or the input has ended. */
    method Receive() returns (ok: bool)
      requires Buffers() && error == NoTrouble && rawLast < raw.Length
      modifies this`rawLast, this`eof, this`rest, this`error, raw
      ensures Buffers() && error == (if ok then NoTrouble else InputError) && |rest| <= |old(rest)|
      ensures ok ==> Raw() + rest == old(Raw()) + old(rest) && (!eof ==> |rest| < |old(rest)|)
    {
      ghost var before, todo := Raw(), rest;
      var size;
      ok, size := ReadHandler();
      if !ok {
        error := InputError;
        return;
      }
      rawLast := rawLast + size;
      if size == 0 {
        eof := true;
      }
      Joined(raw[..], rawPos, rawLast - size, rawLast, before, todo, size);
    }

    method UpdateRawBuffer() returns (ok: bool)
      requires Buffers() && error == NoTrouble
      modifies this`rawPos, this`rawLast, this`eof, this`rest, this`error, raw
      ensures Buffers() && error == (if ok then NoTrouble else InputError) && |rest| <= |old(rest)|
      ensures ok ==> Raw() + rest == old(Raw()) + old(rest) && (old(eof) ==> eof)
      ensures ok && |old(Raw())| < raw.Length && !eof ==> |rest| < |old(rest)|
    {
      ok := true;
      if rawPos == 0 && rawLast == raw.Length {
        return;
      }
      if eof {
        return;
      }
      MoveRaw();
      ok := Receive();
    }

    // ---- The encoding ----

    method ReadMark() returns (e: Encoding, n: nat)
      requires Buffers()
      ensures (e, n) == Detect(Raw()) && n <= |Raw()|
    {
      var a, b, c := RawAt(0), RawAt(1), RawAt(2);
      var count := rawLast - rawPos;
      e, n := Utf8, 0;
      if count >= 2 && a == 0xFF && b == 0xFE {
        e, n := Utf16(true), 2;
      } else if count >= 2 && a == 0xFE && b == 0xFF {
        e, n := Utf16(false), 2;
      } else if count >= 3 && a == 0xEF && b == 0xBB && c == 0xBF {
        e, n := Utf8, 3;
      }
      DetectMark(Raw(), e, n);
    }

    /** The raw byte at a place, if there is one. */
    function RawAt(k: nat): (b: Byte)
      requires Buffers()
      reads this, raw
      ensures k < |Raw()| ==> b == Raw()[k]
    {
      if rawPos + k < rawLast then raw[rawPos + k] else 0
    }

    /** At least three bytes, unless the input is shorter. */
    method FirstBytes() returns (ok: bool)
      requires Buffers() && error == NoTrouble
      modifies this`rawPos, this`rawLast, this`eof, this`rest, this`error, raw
      ensures Buffers() && error == (if ok then NoTrouble else InputError) && |rest| <= |old(rest)|
      ensures ok ==> Raw() + rest == old(Raw()) + old(rest) && (|Raw()| >= 3 || rest == [])
    {
      ok := true;
      while !eof && rawLast - rawPos < 3
        invariant Buffers() && error == NoTrouble && |rest| <= |old(rest)|
        invariant ok && Raw() + rest == old(Raw()) + old(rest)
        decreases !eof, |rest|
      {
        ok := UpdateRawBuffer();
        if !ok {
          return;
        }
      }
    }

    /** The encoding is that of the input, however many reads it takes to see its first bytes. */
    method DetermineEncoding(ghost input: Bytes) returns (ok: bool)
      requires Buffers() && error == NoTrouble && Raw() + rest == input
      modifies this`rawPos, this`rawLast, this`eof, this`rest, this`error, this`encoding, raw
      ensures Buffers() && error == (if ok then NoTrouble else InputError) && |rest| <= |old(rest)|
      ensures ok ==> encoding == Some(Detect(input).0) && Raw() + rest == input[Detect(input).1..]
    {
      ok := FirstBytes();
      if !ok {
        return;
      }
      DetectSoon(Raw(), rest);
      var e, n := ReadMark();
      DropMark(Raw(), rest, n);
      encoding, rawPos := Some(e), rawPos + n;
    }

    // ---- Decoding ----

    /** The trailing octets of a character. */
    method ReadTrail(width: nat, lead: nat) returns (v: Option<nat>)
      requires Buffers() && 1 <= width <= |Raw()|
      ensures v == Trail(lead, Raw()[1..width])
    {
      ghost var s := Raw();
      var value: nat := lead;
      for k := 1 to width
        invariant Trail(lead, s[1..width]) == Trail(value, s[k..width])
      {
        var octet := raw[rawPos + k];
        assert octet == s[k] == s[k..width][0] && s[k..width][1..] == s[k + 1..width];
        if !Trailing(octet) {
          return None;
        }
        value := value * 64 + octet % 64;
      }
      assert s[width..width] == [];
      v := Some(value);
    }

    method ReadUtf8() returns (d: Decoded)
      requires Buffers() && Raw() != []
      ensures d == DecodeUtf8(Raw())
    {
      var octet := raw[rawPos];
      var width := Width(octet);
      if width == 0 {
        return Bad;
      }
      if width > rawLast - rawPos {
        return More;
      }
      var v := ReadTrail(width, Lead(octet));
      d := if v.Some? && Proper(width, v.value) then Char(v.value, width) else Bad;
    }

    method ReadUtf16(little: bool) returns (d: Decoded)
      requires Buffers() && Raw() != []
      ensures d == DecodeUtf16(little, Raw())
    {
      if rawLast - rawPos < 2 {
        return More;
      }
      var value := Unit(little, raw[rawPos], raw[rawPos + 1]);
      if 0xDC00 <= value <= 0xDFFF {
        return Bad;
      }
      if !(0xD800 <= value <= 0xDBFF) {
        return Char(value, 2);
      }
      if rawLast - rawPos < 4 {
        return More;
      }
      var value2 := Unit(little, raw[rawPos + 2], raw[rawPos + 3]);
      d := if 0xDC00 <= value2 <= 0xDFFF then Char(0x1_0000 + (value - 0xD800) * 1024 + (value2 - 0xDC00), 4) else Bad;
    }

    method ReadCharacter(e: Encoding) returns (d: Decoded)
      requires Buffers() && Raw() != []
      ensures d == Decode(e, Raw())
    {
      match e {
        case Utf8 => d := ReadUtf8();
        case Utf16(little) => d := ReadUtf16(little);
      }
      if d.Char? && !Allowed(d.value) {
        d := Bad;
      }
    }

    method Append(b: Bytes)
      requires Buffers() && last + |b| <= buffer.Length
      modifies this`last, buffer
      ensures Buffers() && last == old(last) + |b| && buffer[pos..last] == old(buffer[pos..last]) + b
      ensures Raw() == old(Raw())
    {
      ghost var was := buffer[pos..last];
      var from := last;
      for k := 0 to |b|
        invariant buffer[pos..from] == was && buffer[from..from + k] == b[..k]
        modifies buffer
      {
        buffer[from + k] := b[k];
      }
      last := from + |b|;
      assert buffer[pos..last] == buffer[pos..from] + buffer[from..last];
    }

    /** A character goes into the buffer. */
    method Put(v: nat, ghost waiting: seq<nat>)
      requires Buffers() && Holds(waiting, false) && Allowed(v) && last + |EncodeUtf8(v)| <= buffer.Length
      modifies this`last, this`unread, buffer
      ensures Buffers() && Holds(waiting + [v], false) && last == old(last) + |EncodeUtf8(v)|
      ensures Raw() == old(Raw())
    {
      var b := EncodeUtf8(v);
      Utf8Snoc(waiting, v, b);
      Append(b);
      unread := unread + 1;
    }

    /** At the end of the input a NUL goes into the buffer. */
    method PutEnd(ghost waiting: seq<nat>)
      requires Buffers() && Holds(waiting, false) && last < buffer.Length
      modifies this`last, this`unread, buffer
      ensures Buffers() && Holds(waiting, true) && Raw() == old(Raw())
    {
      Append([0]);
      unread := unread + 1;
    }

    /** While the buffer is filled. */
    ghost predicate Filling(e: Encoding, text: Text, taken: seq<nat>, waiting: seq<nat>)
      reads this, raw, buffer
    {
      && Buffers() && Holds(waiting, false) && pos == 0 && encoding == Some(e) && error == NoTrouble
      && Reading(text, taken + waiting, TextOf(e, Raw() + rest))
    }

    /** While the raw buffer is decoded: whatever comes out of it, there is space in the buffer. */
    ghost predicate Decoding(e: Encoding, text: Text, taken: seq<nat>, waiting: seq<nat>)
      reads this, raw, buffer
    {
      Filling(e, text, taken, waiting) && 2 * last + 3 * (rawLast - rawPos) < 2 * buffer.Length
    }

    /** The character that was read is put into the buffer. */
    method Accept(e: Encoding, v: nat, w: nat, ghost text: Text, ghost taken: seq<nat>, ghost waiting: seq<nat>)
      requires Decoding(e, text, taken, waiting) && Raw() != [] && Decode(e, Raw()) == Char(v, w)
      modifies this`rawPos, this`last, this`unread, buffer
      ensures Decoding(e, text, taken, waiting + [v]) && |Raw()| < |old(Raw())|
    {
      NextChar(e, text, taken + waiting, Raw(), rest, v, w);
      Expansion(e, Raw());
      assert taken + waiting + [v] == taken + (waiting + [v]);
      Put(v, waiting);
      Advance(w);
    }

    method Advance(w: nat)
      requires Buffers() && w <= |Raw()|
      modifies this`rawPos
      ensures Buffers() && Raw() == old(Raw())[w..]
    {
      Slices(raw[..], rawPos, rawLast, w);
      rawPos := rawPos + w;
    }

    /** All complete characters of the raw buffer are decoded. */
    method DecodeRaw(e: Encoding, ghost text: Text, ghost taken: seq<nat>, ghost waiting: seq<nat>)
      returns (ok: bool, ghost waiting': seq<nat>)
      requires Decoding(e, text, taken, waiting)
      modifies this`rawPos, this`last, this`unread, this`error, buffer
      ensures waiting <= waiting'
      ensures ok ==> Decoding(e, text, taken, waiting') && |Raw()| < 4 && (eof ==> Raw() == [])
      ensures !ok ==> error == BadInput && text == Text(taken + waiting', false)
    {
      ok, waiting' := true, waiting;
      while rawPos != rawLast
        invariant ok && Decoding(e, text, taken, waiting') && waiting <= waiting'
        decreases rawLast - rawPos
      {
        var d := ReadCharacter(e);
        if d.More? && !eof {
          FewUndecided(e, Raw());
          break;
        }
        if !d.Char? {
          NoChar(e, text, taken + waiting', Raw(), rest);
          error := BadInput;
          return false, waiting';
        }
        Accept(e, d.value, d.width, text, taken, waiting');
        waiting' := waiting' + [d.value];
      }
    }

    /** The unread characters move to the front. */
    method MoveBuffer(ghost waiting: seq<nat>, ghost ended: bool)
      requires Buffers() && Holds(waiting, ended)
      modifies this`pos, this`last, buffer
      ensures Buffers() && Holds(waiting, ended) && pos == 0 && Raw() == old(Raw())
    {
      if pos < last {
        if pos > 0 {
          MoveDown(buffer, pos, last);
          pos, last := 0, last - pos;
        }
      } else {
        pos, last := 0, 0;
      }
    }

    /** One round of filling the buffer: more raw bytes, if they are needed, are decoded. */
    method FillOnce(e: Encoding, more: bool, ghost text: Text, ghost taken: seq<nat>, ghost waiting: seq<nat>)
      returns (ok: bool, ghost waiting': seq<nat>)
      requires Filling(e, text, taken, waiting) && unread < MAX_LENGTH
      modifies this`rawPos, this`rawLast, this`eof, this`rest, this`last, this`unread, this`error, raw, buffer
      ensures waiting <= waiting' && |rest| <= |old(rest)|
      ensures ok && !eof ==> Filling(e, text, taken, waiting') && |Raw()| < 4
      ensures ok && !eof && more && |old(Raw())| < raw.Length ==> |rest| < |old(rest)|
      ensures ok && eof ==> Buffers() && Holds(waiting', true) && error == NoTrouble && Raw() + rest == []
      ensures ok && eof ==> text == Text(taken + waiting', true)
      ensures !ok ==> error == InputError || (error == BadInput && text == Text(taken + waiting', false))
    {
      ok, waiting' := true, waiting;
      if more {
        ok := UpdateRawBuffer();
        if !ok {
          return;
        }
      }
      Utf8Length(waiting);
      ok, waiting' := DecodeRaw(e, text, taken, waiting);
      if ok && eof {
        AllRead(text, taken + waiting', e);
        PutEnd(waiting');
      }
    }

    method UpdateBuffer(length: nat, ghost input: Bytes, ghost taken: seq<nat>, ghost waiting: seq<nat>,
                        ghost ended: bool)
      returns (ok: bool, ghost waiting': seq<nat>, ghost ended': bool)
      requires Valid(input, taken, waiting, ended) && length <= MAX_LENGTH
      modifies this, raw, buffer
      ensures waiting <= waiting'
      ensures ok ==> Valid(input, taken, waiting', ended') && (unread >= length || ended')
      ensures !ok ==> error == InputError || (error == BadInput && InputText(input) == Text(taken + waiting', false))
    {
      ok, waiting', ended' := true, waiting, ended;
      if eof && rawPos == rawLast {
        return;
      }
      if unread >= length {
        return;
      }
      if encoding.None? {
        ok := DetermineEncoding(input);
        if !ok {
          return;
        }
      }
      MoveBuffer(waiting, ended);
      ok, waiting' := Fill(encoding.value, length, InputText(input), taken, waiting);
      ended' := eof;
    }

    /** Rounds until there are enough characters or the input has ended. */
    method Fill(e: Encoding, length: nat, ghost text: Text, ghost taken: seq<nat>, ghost waiting: seq<nat>)
      returns (ok: bool, ghost waiting': seq<nat>)
      requires Filling(e, text, taken, waiting) && unread < length <= MAX_LENGTH
      modifies this`rawPos, this`rawLast, this`eof, this`rest, this`last, this`unread, this`error, raw, buffer
      ensures waiting <= waiting'
      ensures ok && !eof ==> Filling(e, text, taken, waiting') && unread >= length
      ensures ok && eof ==> Buffers() && Holds(waiting', true) && error == NoTrouble && Raw() + rest == []
      ensures ok && eof ==> text == Text(taken + waiting', true)
      ensures !ok ==> error == InputError || (error == BadInput && text == Text(taken + waiting', false))
    {
      var first := true;
      waiting' := waiting;
      while unread < length
        invariant Filling(e, text, taken, waiting') && waiting <= waiting'
        invariant !first ==> |Raw()| < 4 && !eof
        invariant first ==> unread < length
        decreases |rest|, first
      {
        ok, waiting' := FillOnce(e, !first || rawPos == rawLast, text, taken, waiting');
        if !ok || eof {
          return;
        }
        first := false;
      }
      ok := true;
    }

    /** The first character leaves the buffer. */
    method SkipBytes(ghost waiting: seq<nat>, ghost tail: Bytes, ghost v: nat, ghost more: seq<nat>)
      returns (bytes: Bytes)
      requires Buffers() && AllAllowed(waiting) && waiting == [v] + more && buffer[pos..last] == Utf8Of(waiting) + tail
      modifies this`pos
      ensures Allowed(v) && AllAllowed(more) && bytes == EncodeUtf8(v)
      ensures pos <= last && buffer[pos..last] == Utf8Of(more) + tail
    {
      ghost var s := buffer[pos..last];
      assert Allowed(waiting[0]);
      TakeFirst(s, waiting, tail, v, more, |EncodeUtf8(v)|);
      var w := Width(buffer[pos]);
      Slices(buffer[..], pos, last, w);
      bytes := buffer[pos..pos + w];
      pos := pos + w;
    }

    /** SKIP: the scanner takes the next character. */
    method Skip(ghost input: Bytes, ghost taken: seq<nat>, ghost waiting: seq<nat>, ghost ended: bool)
      returns (bytes: Bytes)
      requires Valid(input, taken, waiting, ended) && waiting != []
      modifies this`pos, this`unread
      ensures Allowed(waiting[0]) && bytes == EncodeUtf8(waiting[0])
      ensures Valid(input, taken + [waiting[0]], waiting[1..], ended)
    {
      ghost var v, more := waiting[0], waiting[1..];
      assert waiting == [v] + more;
      assert taken + waiting == taken + [v] + more;
      bytes := SkipBytes(waiting, if ended then [0] else [], v, more);
      unread := unread - 1;
    }

    /** While characters are taken: `t` have been, `w` are to come, and `out` is what they are in UTF-8. */
    ghost predicate Taking(input: Bytes, t: seq<nat>, w: seq<nat>, ended: bool, out: Bytes, all: seq<nat>)
      reads this, raw, buffer
    {
      Valid(input, t, w, ended) && t + w == all && AllAllowed(t) && out == Utf8Of(t)
    }

    method TakeOne(out: Bytes, ghost input: Bytes, ghost t: seq<nat>, ghost w: seq<nat>, ghost ended: bool,
                   ghost all: seq<nat>)
      returns (out': Bytes)
      requires Taking(input, t, w, ended, out, all) && w != []
      modifies this`pos, this`unread
      ensures Taking(input, t + [w[0]], w[1..], ended, out', all)
    {
      ghost var v := w[0];
      var bytes := Skip(input, t, w, ended);
      Utf8Snoc(t, v, bytes);
      TakeFront(t, w);
      out' := out + bytes;
    }

    /** The next character is taken, if there is one. */
    method TakeNext(out: Bytes, ghost input: Bytes, ghost t: seq<nat>, ghost w: seq<nat>, ghost ended: bool,
                    ghost all: seq<nat>)
      returns (more: bool, out': Bytes, ghost t': seq<nat>, ghost w': seq<nat>)
      requires Taking(input, t, w, ended, out, all)
      modifies this`pos, this`unread
      ensures Taking(input, t', w', ended, out', all) && (if more then |w'| < |w| else w' == [])
    {
      more, out', t', w' := unread > if eof then 1 else 0, out, t, w;
      if more {
        out' := TakeOne(out, input, t, w, ended, all);
        t', w' := t + [w[0]], w[1..];
      }
    }

    /** All characters in the buffer are taken. */
    method TakeAll(out: Bytes, ghost input: Bytes, ghost taken: seq<nat>, ghost waiting: seq<nat>, ghost ended: bool,
                   ghost all: seq<nat>)
      returns (out': Bytes)
      requires Taking(input, taken, waiting, ended, out, all)
      modifies this`pos, this`unread
      ensures Taking(input, all, [], ended, out', all)
    {
      out' := out;
      ghost var t, w := taken, waiting;
      var more := true;
      while more
        invariant Taking(input, t, w, ended, out', all) && (!more ==> w == [])
        decreases more, |w|
      {
        more, out', t, w := TakeNext(out', input, t, w, ended, all);
      }
      assert t + [] == t;
    }

    /** The whole input, by requests of any length: what comes out is the UTF-8 of its text. */
    method ReadAll(length: nat, ghost input: Bytes) returns (ok: bool, out: Bytes)
      requires Valid(input, [], [], false) && 1 <= length <= MAX_LENGTH
      modifies this, raw, buffer
      ensures ok ==> InputText(input).good && AllAllowed(InputText(input).chars)
      ensures ok ==> out == Utf8Of(InputText(input).chars)
      ensures !ok ==> error != NoTrouble && (error == BadInput ==> !InputText(input).good)
    {
      ok, out := true, [];
      ghost var taken, waiting, ended := [], [], false;
      while !eof
        invariant ok && Valid(input, taken, [], ended) && AllAllowed(taken) && out == Utf8Of(taken)
        decreases !eof, |InputText(input).chars| - |taken|
      {
        ok, waiting, ended := UpdateBuffer(length, input, taken, [], ended);
        if !ok {
          return;
        }
        out := TakeAll(out, input, taken, waiting, ended, taken + waiting);
        taken := taken + waiting;
        WithinText(InputText(input), taken, encoding.value, Raw() + rest);
      }
      assert taken + [] == taken;
      AllRead(InputText(input), taken, encoding.value);
    }
  }

  lemma {:induction false} TakeFront<T>(t: seq<T>, w: seq<T>)
    requires w != []
    ensures t + w == t + [w[0]] + w[1..]
  {}

  lemma {:induction false} WithinText(text: Text, taken: seq<nat>, e: Encoding, s: Bytes)
    requires Reading(text, taken + [], TextOf(e, s))
    ensures |taken| <= |text.chars|
  {}

  lemma {:induction false} Slices(a: Bytes, i: nat, k: nat, w: nat)
    requires i <= k <= |a| && w <= k - i
    ensures a[i..i + w] == a[i..k][..w] && a[i + w..k] == a[i..k][w..]
  {}

  lemma {:induction false} AllRead(text: Text, out: seq<nat>, e: Encoding)
    requires Reading(text, out, TextOf(e, []))
    ensures text == Text(out, true)
  {
    assert out + [] == out;
  }

  lemma {:induction false} Joined(a: Bytes, i: nat, j: nat, k: nat, before: Bytes, todo: Bytes, size: nat)
    requires i <= j <= k <= |a| && a[i..j] == before && size <= |todo| && a[j..k] == todo[..size]
    ensures a[i..k] + todo[size..] == before + todo
  {
    assert a[i..k] == a[i..j] + a[j..k];
    assert todo == todo[..size] + todo[size..];
  }

  lemma {:induction false} DropMark(a: Bytes, b: Bytes, n: nat)
    requires n <= |a|
    ensures a[n..] + b == (a + b)[n..]
  {}

  lemma {:induction false} DetectMark(a: Bytes, e: Encoding, n: nat)
    requires n <= |a|
    requires
      if |a| >= 2 && a[0] == 0xFF && a[1] == 0xFE then e == Utf16(true) && n == 2
      else if |a| >= 2 && a[0] == 0xFE && a[1] == 0xFF then e == Utf16(false) && n == 2
      else if |a| >= 3 && a[0] == 0xEF && a[1] == 0xBB && a[2] == 0xBF then e == Utf8 && n == 3
      else e == Utf8 && n == 0
    ensures Detect(a) == (e, n)
  {
    if |a| >= 2 {
      assert a[..2] == [a[0], a[1]];
    }
    if |a| >= 3 {
      assert a[..3] == [a[0], a[1], a[2]];
    }
  }

  /** A UTF-8 input without mistakes comes out as it is, but for its byte order mark. */
  lemma {:induction false} Utf8Kept(input: Bytes)
    requires Detect(input).0 == Utf8 && InputText(input).good
    ensures AllAllowed(InputText(input).chars) && Utf8Of(InputText(input).chars) == input[Detect(input).1..]
  {
    Reproduced(input[Detect(input).1..]);
  }
}
