/** Writer and reader together: what the emitter writes in an encoding, the reader reads back, byte order mark
    included. */
module YamlTranscoding {
  import opened Ordering
  import opened Unicode
  import opened YamlReader
  import opened YamlWriter

  const MARK := 0xFEFF

  /** The bytes of a stream: UTF-16 starts with a byte order mark. */
  function Written(e: Encoding, cs: seq<nat>): Bytes
    requires AllAllowed(cs)
  {
    if e.Utf8? then Utf8Of(cs) else Units(e.little, MARK) + Recoded(e.little, cs)
  }

  lemma {:induction false} MarkedReads(little: bool, cs: seq<nat>)
    requires AllAllowed(cs)
    ensures InputText(Written(Utf16(little), cs)) == TextOf(Utf16(little), Recoded(little, cs))
  {
    var m, b := Units(little, MARK), Recoded(little, cs);
    assert m == if little then [0xFF, 0xFE] else [0xFE, 0xFF];
    assert (m + b)[..2] == m && (m + b)[2..] == b;
  }

  /** The first bytes of UTF-8 text are a mark only if the first character is one. */
  lemma {:induction false} NoMark(cs: seq<nat>)
    requires AllAllowed(cs) && (cs == [] || cs[0] != MARK)
    ensures Detect(Utf8Of(cs)) == (Utf8, 0)
  {
    if cs != [] {
      assert Allowed(cs[0]);
      var s := Utf8Of(cs);
      EncodedDecodes(cs[0], Utf8Of(cs[1..]));
      assert |s| >= 2 ==> s[..2][0] == s[0];
      if |s| >= 3 && s[..3] == [0xEF, 0xBB, 0xBF] {
        MarkDecodes(s);
      }
    }
  }

  lemma {:induction false} MarkDecodes(s: Bytes)
    requires |s| >= 3 && s[..3] == [0xEF, 0xBB, 0xBF]
    ensures DecodeUtf8(s) == Char(MARK, 3)
  {
    Decodes3(MARK, s);
  }

  lemma {:induction false} MarkLost(cs: seq<nat>)
    requires AllAllowed(cs) && cs != [] && cs[0] == MARK
    ensures InputText(Utf8Of(cs)) == Text(cs[1..], true)
  {
    var b, rest := EncodeUtf8(MARK), Utf8Of(cs[1..]);
    assert b == [0xEF, 0xBB, 0xBF];
    assert (b + rest)[..2] == [0xEF, 0xBB] && (b + rest)[..3] == b && (b + rest)[3..] == rest;
    ReadBack(cs[1..]);
  }

  /** The condition under which a text comes back. */
  predicate ComesBack(e: Encoding, cs: seq<nat>) {
    if e.Utf8? then cs == [] || cs[0] != MARK else AllSurvive(cs)
  }

  /** Text in UTF-8 is read back unless it starts with a mark, which is dropped; text in UTF-16 is read back if and
      only if its characters survive. */
  lemma {:induction false} WrittenExactly(e: Encoding, cs: seq<nat>)
    requires AllAllowed(cs)
    ensures InputText(Written(e, cs)) == Text(cs, true) <==> ComesBack(e, cs)
  {
    if e.Utf16? {
      MarkedReads(e.little, cs);
      RecodedExactly(e.little, cs);
    } else if cs == [] || cs[0] != MARK {
      NoMark(cs);
      ReadBack(cs);
      assert Utf8Of(cs)[0..] == Utf8Of(cs);
    } else {
      MarkLost(cs);
      assert |cs[1..]| != |cs|;
    }
  }

  // ---- Any number of flushes ----

  function Flat(chunks: seq<seq<nat>>): seq<nat> {
    if chunks == [] then [] else Flat(chunks[..|chunks| - 1]) + chunks[|chunks| - 1]
  }

  predicate AllChunks(chunks: seq<seq<nat>>) {
    forall k | 0 <= k < |chunks| :: AllAllowed(chunks[k]) && |Utf8Of(chunks[k])| <= OUTPUT_BUFFER_SIZE
  }

  /** What the emitter puts out: the text, behind a mark unless it is UTF-8. */
  function Marked(e: Encoding, cs: seq<nat>): seq<nat> {
    if e.Utf8? then cs else [MARK] + cs
  }

  function Coded(e: Encoding, cs: seq<nat>): Bytes
    requires AllAllowed(cs)
  {
    if e.Utf8? then Utf8Of(cs) else Recoded(e.little, cs)
  }

  lemma {:induction false} CodedStep(e: Encoding, v: nat, cs: seq<nat>) returns (b: Bytes)
    requires Allowed(v) && AllAllowed(cs)
    ensures AllAllowed([v] + cs) && Coded(e, [v] + cs) == b + Coded(e, cs)
    ensures b == if e.Utf8? then EncodeUtf8(v) else Units(e.little, v)
  {
    assert ([v] + cs)[1..] == cs;
    b := if e.Utf8? then EncodeUtf8(v) else Units(e.little, v);
  }

  lemma {:induction false} CodedAppend(e: Encoding, a: seq<nat>, c: seq<nat>)
    requires AllAllowed(a) && AllAllowed(c)
    ensures AllAllowed(a + c) && Coded(e, a + c) == Coded(e, a) + Coded(e, c)
    decreases |a|
  {
    if a == [] {
      assert a + c == c;
    } else {
      var v, more := a[0], a[1..];
      assert Allowed(v) && a == [v] + more && a + c == [v] + (more + c);
      CodedAppend(e, more, c);
      var b := CodedStep(e, v, more);
      var _ := CodedStep(e, v, more + c);
      Regroup(b, Coded(e, more), Coded(e, c));
    }
  }

  lemma {:induction false} FlatMore(chunks: seq<seq<nat>>, k: nat)
    requires k < |chunks|
    ensures Flat(chunks[..k + 1]) == Flat(chunks[..k]) + chunks[k]
  {
    assert chunks[..k + 1][..k] == chunks[..k];
  }

  /** The buffer is filled. */
  method Fill(buf: array<Byte>, bytes: Bytes)
    requires |bytes| <= buf.Length
    modifies buf
    ensures buf[..|bytes|] == bytes
  {
    for k := 0 to |bytes|
      invariant buf[..k] == bytes[..k]
    {
      buf[k] := bytes[k];
    }
  }

  /** The text is cut into any chunks that fit the buffer, and each is flushed. */
  method WriteAll(e: Encoding, chunks: seq<seq<nat>>) returns (out: Bytes)
    requires AllChunks(chunks)
    ensures AllAllowed(Flat(chunks)) && out == Coded(e, Flat(chunks))
  {
    var buf, raw := new Byte[OUTPUT_BUFFER_SIZE], new Byte[OUTPUT_RAW_BUFFER_SIZE];
    out := [];
    for k := 0 to |chunks|
      invariant AllAllowed(Flat(chunks[..k])) && out == Coded(e, Flat(chunks[..k]))
    {
      assert AllAllowed(chunks[k]);
      var bytes := Utf8Of(chunks[k]);
      Fill(buf, bytes);
      var more := Flush(buf, |bytes|, e, raw, chunks[k]);
      FlatMore(chunks, k);
      CodedAppend(e, Flat(chunks[..k]), chunks[k]);
      out := out + more;
    }
    assert chunks[..|chunks|] == chunks;
  }

  lemma {:induction false} MarkedCoded(e: Encoding, cs: seq<nat>)
    requires AllAllowed(cs)
    ensures AllAllowed(Marked(e, cs)) && Coded(e, Marked(e, cs)) == Written(e, cs)
  {
    if e.Utf16? {
      var _ := CodedStep(e, MARK, cs);
    }
  }

  lemma {:induction false} SameText(cs: seq<nat>, t: Text)
    requires AllAllowed(cs) && AllAllowed(t.chars) && t.good
    ensures Utf8Of(t.chars) == Utf8Of(cs) <==> t == Text(cs, true)
  {
    ReadBack(cs);
    ReadBack(t.chars);
  }

  /** A whole text, flushed in any chunks and read by requests of any length: unless reading fails, it comes back
      exactly under the condition, and it is called bad only if it does not come back. */
  method WriteThenRead(e: Encoding, cs: seq<nat>, chunks: seq<seq<nat>>, length: nat)
    returns (ok: bool, bad: bool, back: Bytes)
    requires AllAllowed(cs) && AllChunks(chunks) && Flat(chunks) == Marked(e, cs) && 1 <= length <= MAX_LENGTH
    ensures ok ==> (back == Utf8Of(cs) <==> ComesBack(e, cs))
    ensures bad ==> !ok && !ComesBack(e, cs)
  {
    var out := WriteAll(e, chunks);
    MarkedCoded(e, cs);
    WrittenExactly(e, cs);
    var reader := new Reader(out);
    ok, back := reader.ReadAll(length, out);
    bad := !ok && reader.error == BadInput;
    if ok {
      SameText(cs, InputText(out));
    }
  }
}
