/** The writer of the YAML emitter: the UTF-8 in the output buffer is written as it is or recoded to UTF-16. */
module YamlWriter {
  import opened Options
  import opened Ordering
  import opened Unicode

  const OUTPUT_BUFFER_SIZE := 16384
  const OUTPUT_RAW_BUFFER_SIZE := OUTPUT_BUFFER_SIZE * 2 + 2

  function Pair(little: bool, high: Byte, low: Byte): Bytes {
    if little then [low, high] else [high, low]
  }

  /** The bytes that are written for a character. */
  function Units(little: bool, v: nat): Bytes
    requires v <= 0x10_FFFF
  {
    if v < 0x1_0000 then Pair(little, v / 256, v % 256)
    else
      var u := v - 0x1_0000;
      Pair(little, 0xD8 + u / 0x4_0000, u / 1024 % 256) + Pair(little, (0xDC + u / 256 % 256) % 256, u % 256)
  }

  function Recoded(little: bool, cs: seq<nat>): Bytes
    requires AllAllowed(cs)
  {
    if cs == [] then [] else Units(little, cs[0]) + Recoded(little, cs[1..])
  }

  // ---- What can be read back ----

  /** Eight bits go to where a low surrogate has two. */
  predicate Survives(v: nat) {
    v < 0x1_0000 || (v - 0x1_0000) / 256 % 256 < 4
  }

  lemma {:induction false} UnitOf(little: bool, high: Byte, low: Byte, s: Bytes, k: nat)
    requires k + 2 <= |s| && s[k..k + 2] == Pair(little, high, low)
    ensures Unit(little, s[k], s[k + 1]) == 256 * high + low
  {
    assert s[k] == s[k..k + 2][0] && s[k + 1] == s[k..k + 2][1];
  }

  lemma {:induction false} HighSurrogate(u: nat, a: nat)
    requires a == 0xD8 + u / 0x4_0000
    ensures 256 * a + u / 1024 % 256 == 0xD800 + u / 1024
  {
    assert u / 1024 / 256 == u / 0x4_0000;
  }

  lemma {:induction false} LowSurrogate(x: nat, low: nat, b: nat)
    requires x < 256 && low < 256 && b == (0xDC + x) % 256
    ensures 0xDC00 <= 256 * b + low <= 0xDFFF <==> x < 4
    ensures x < 4 ==> 256 * b + low == 0xDC00 + 256 * x + low
  {
    assert b == if x < 36 then 0xDC + x else x - 36;
  }

  lemma {:induction false} LowBits(u: nat, x: nat)
    requires x == u / 256 % 256 && x < 4
    ensures 256 * x + u % 256 == u % 1024
  {
    var q := u / 256;
    assert q == q / 256 * 256 + x;
    assert q % 4 == x;
    assert u == q * 256 + u % 256;
    assert u / 1024 == q / 4;
  }

  lemma {:induction false} Surrogates(u: nat, a: nat, b: nat)
    requires u < 0x10_0000 && a == 0xD8 + u / 0x4_0000 && b == (0xDC + u / 256 % 256) % 256
    ensures 256 * a + u / 1024 % 256 == 0xD800 + u / 1024
    ensures 0xDC00 <= 256 * b + u % 256 <= 0xDFFF <==> u / 256 % 256 < 4
    ensures u / 256 % 256 < 4 ==> 256 * b + u % 256 == 0xDC00 + u % 1024
  {
    var x := u / 256 % 256;
    HighSurrogate(u, a);
    LowSurrogate(x, u % 256, b);
    if x < 4 {
      LowBits(u, x);
    }
  }

  lemma {:induction false} DecodeBmp(little: bool, v: nat, s: Bytes)
    requires Allowed(v) && v < 0x1_0000 && |s| >= 2 && s[..2] == Units(little, v)
    ensures Decode(Utf16(little), s) == Char(v, 2)
  {
    assert s[0..2] == s[..2];
    UnitOf(little, v / 256, v % 256, s, 0);
  }

  lemma {:induction false} DecodePair(little: bool, v: nat, s: Bytes)
    requires Allowed(v) && v >= 0x1_0000 && |s| >= 4 && s[..4] == Units(little, v)
    ensures Decode(Utf16(little), s) == if Survives(v) then Char(v, 4) else Bad
  {
    var u := v - 0x1_0000;
    var a, b := 0xD8 + u / 0x4_0000, (0xDC + u / 256 % 256) % 256;
    assert s[0..2] == s[..4][0..2] == Pair(little, a, u / 1024 % 256);
    assert s[2..4] == s[..4][2..4] == Pair(little, b, u % 256);
    UnitOf(little, a, u / 1024 % 256, s, 0);
    UnitOf(little, b, u % 256, s, 2);
    Surrogates(u, a, b);
    assert u / 1024 * 1024 + u % 1024 == u;
  }

  lemma {:induction false} UnitsDecode(little: bool, v: nat, t: Bytes)
    requires Allowed(v)
    ensures Decode(Utf16(little), Units(little, v) + t) == if Survives(v) then Char(v, |Units(little, v)|) else Bad
  {
    var b := Units(little, v);
    assert (b + t)[..|b|] == b;
    if v < 0x1_0000 {
      DecodeBmp(little, v, b + t);
    } else {
      DecodePair(little, v, b + t);
    }
  }

  /** The characters up to the first one that does not survive. */
  function Surviving(cs: seq<nat>): seq<nat> {
    if cs == [] || !Survives(cs[0]) then [] else [cs[0]] + Surviving(cs[1..])
  }

  predicate AllSurvive(cs: seq<nat>) {
    forall k | 0 <= k < |cs| :: Survives(cs[k])
  }

  lemma {:induction false} SurvivingAll(cs: seq<nat>)
    ensures Surviving(cs) <= cs && (Surviving(cs) == cs <==> AllSurvive(cs))
    decreases |cs|
  {
    if cs != [] {
      SurvivingAll(cs[1..]);
      assert cs == [cs[0]] + cs[1..];
      if Survives(cs[0]) && AllSurvive(cs[1..]) {
        forall k | 0 <= k < |cs| ensures Survives(cs[k]) {
          assert k > 0 ==> cs[k] == cs[1..][k - 1];
        }
      }
    }
  }

  /** What is recoded is read as the characters up to the first that does not survive. */
  lemma {:induction false} RecodedReads(little: bool, cs: seq<nat>)
    requires AllAllowed(cs)
    ensures TextOf(Utf16(little), Recoded(little, cs)) == Text(Surviving(cs), |Surviving(cs)| == |cs|)
    decreases |cs|
  {
    if cs != [] {
      assert Allowed(cs[0]);
      var b, rest := Units(little, cs[0]), Recoded(little, cs[1..]);
      UnitsDecode(little, cs[0], rest);
      if Survives(cs[0]) {
        assert (b + rest)[|b|..] == rest;
        RecodedReads(little, cs[1..]);
        TextStep(Utf16(little), b + rest, cs[0], |b|, TextOf(Utf16(little), rest));
      }
    }
  }

  /** Recoded text is read back if and only if all its characters survive; those below U+10000 always do. */
  lemma {:induction false} RecodedExactly(little: bool, cs: seq<nat>)
    requires AllAllowed(cs)
    ensures TextOf(Utf16(little), Recoded(little, cs)) == Text(cs, true) <==> AllSurvive(cs)
  {
    RecodedReads(little, cs);
    SurvivingAll(cs);
  }

  /** U+10400, for instance, does not survive. */
  lemma {:induction false} LostCharacter(little: bool)
    ensures Allowed(0x1_0400) && TextOf(Utf16(little), Recoded(little, [0x1_0400])) == Text([], false)
  {
    RecodedReads(little, [0x1_0400]);
  }

  // ---- The loop ----

  lemma {:induction false} TrailNext(v: nat, s: Bytes, k: nat, w: nat)
    requires k < w <= |s| && Trail(v, s[k..w]).Some?
    ensures Trail(v * 64 + s[k] % 64, s[k + 1..w]) == Trail(v, s[k..w])
  {
    assert s[k..w][1..] == s[k + 1..w];
  }

  /** The next UTF-8 character of the buffer, which is known to be valid. */
  method ReadCharacter(buf: array<Byte>, pos: nat, ghost n: nat, ghost v: nat, ghost t: Bytes)
    returns (value: nat, width: nat)
    requires Allowed(v) && pos <= n <= buf.Length && buf[..n][pos..] == EncodeUtf8(v) + t
    ensures value == v && width == |EncodeUtf8(v)|
  {
    ghost var s := buf[..n][pos..];
    FirstOctet(s, v, t);
    var octet := buf[pos];
    width, value := Width(octet), Lead(octet);
    for k := 1 to width
      invariant 1 <= width <= |s| && Trail(value, s[k..width]) == Some(v)
    {
      octet := buf[pos + k];
      assert octet == s[k];
      TrailNext(value, s, k, width);
      value := value * 64 + octet % 64;
    }
    assert s[width..width] == [];
  }

  method WritePair(raw: array<Byte>, at: nat, little: bool, high: Byte, low: Byte)
    requires at + 2 <= raw.Length
    modifies raw
    ensures raw[..at + 2] == old(raw[..at]) + Pair(little, high, low)
  {
    raw[at + if little then 1 else 0] := high;
    raw[at + if little then 0 else 1] := low;
  }

  method WriteCharacter(raw: array<Byte>, at: nat, little: bool, value: nat) returns (end: nat)
    requires value <= 0x10_FFFF && at + |Units(little, value)| <= raw.Length
    modifies raw
    ensures end == at + |Units(little, value)| && raw[..end] == old(raw[..at]) + Units(little, value)
  {
    if value < 0x1_0000 {
      WritePair(raw, at, little, value / 256, value % 256);
      end := at + 2;
    } else {
      var u := value - 0x1_0000;
      WritePair(raw, at, little, 0xD8 + u / 0x4_0000, u / 1024 % 256);
      WritePair(raw, at + 2, little, (0xDC + u / 256 % 256) % 256, u % 256);
      end := at + 4;
    }
  }

  /** `pos` bytes with the first `k` characters have been recoded. */
  ghost predicate Halfway(now: Bytes, pos: nat, raw: Bytes, little: bool, cs: seq<nat>, k: nat) {
    && AllAllowed(cs) && k <= |cs| && AllAllowed(cs[..k]) && AllAllowed(cs[k..])
    && now == Utf8Of(cs[k..]) && raw == Recoded(little, cs[..k]) && |raw| <= 2 * pos
  }

  lemma {:induction false} RecodedSnoc(little: bool, cs: seq<nat>, v: nat)
    requires AllAllowed(cs) && Allowed(v)
    ensures AllAllowed(cs + [v]) && Recoded(little, cs + [v]) == Recoded(little, cs) + Units(little, v)
    decreases |cs|
  {
    if cs == [] {
      assert [v][1..] == [] && [] + [v] == [v];
    } else {
      RecodedSnoc(little, cs[1..], v);
      assert (cs + [v])[1..] == cs[1..] + [v];
    }
  }

  lemma {:induction false} UnitsFit(little: bool, v: nat)
    requires v <= 0x10_FFFF
    ensures 1 <= |EncodeUtf8(v)| && 2 <= |Units(little, v)| <= 2 * |EncodeUtf8(v)|
  {}

  lemma {:induction false} HalfwayOne(now: Bytes, pos: nat, raw: Bytes, little: bool, cs: seq<nat>, k: nat, w: nat)
    requires Halfway(now, pos, raw, little, cs, k) && k < |cs| && w == |EncodeUtf8(cs[k])|
    ensures w <= |now| && Halfway(now[w..], pos + w, raw + Units(little, cs[k]), little, cs, k + 1)
  {
    var v := cs[k];
    assert cs[k..][0] == v && cs[k..][1..] == cs[k + 1..] && cs[..k] + [v] == cs[..k + 1];
    RecodedSnoc(little, cs[..k], v);
    UnitsFit(little, v);
    assert now == EncodeUtf8(v) + Utf8Of(cs[k + 1..]);
  }

  /** The `n` bytes in the output buffer are recoded; the raw buffer is large enough. */
  method Recode(buf: array<Byte>, n: nat, little: bool, raw: array<Byte>, ghost cs: seq<nat>) returns (last: nat)
    requires buf.Length == OUTPUT_BUFFER_SIZE && raw.Length == OUTPUT_RAW_BUFFER_SIZE && buf != raw
    requires AllAllowed(cs) && n <= buf.Length && buf[..n] == Utf8Of(cs)
    modifies raw
    ensures last <= raw.Length && raw[..last] == Recoded(little, cs)
  {
    var pos := 0;
    ghost var k := 0;
    last := 0;
    assert cs[0..] == cs && buf[..n][0..] == buf[..n];
    while pos != n
      invariant pos <= n && last <= raw.Length
      invariant Halfway(buf[..n][pos..], pos, raw[..last], little, cs, k)
    {
      ghost var v := cs[k];
      assert cs[k..][0] == v;
      UnitsFit(little, v);
      HalfwayOne(buf[..n][pos..], pos, raw[..last], little, cs, k, |EncodeUtf8(v)|);
      var value, width := ReadCharacter(buf, pos, n, v, Utf8Of(cs[k..][1..]));
      Suffix(buf[..n], pos, width);
      pos, k := pos + width, k + 1;
      last := WriteCharacter(raw, last, little, value);
    }
    EndOfText(cs, k);
  }

  lemma {:induction false} Suffix(s: Bytes, i: nat, w: nat)
    requires i + w <= |s|
    ensures s[i..][w..] == s[i + w..]
  {}

  lemma {:induction false} EndOfText(cs: seq<nat>, k: nat)
    requires AllAllowed(cs) && k <= |cs| && AllAllowed(cs[k..]) && Utf8Of(cs[k..]) == []
    ensures k == |cs| && cs[..k] == cs
  {
    if k < |cs| {
      UnitsFit(false, cs[k]);
    }
  }

  /** yaml_emitter_flush: what is handed to the write handler. */
  method Flush(buf: array<Byte>, n: nat, encoding: Encoding, raw: array<Byte>, ghost cs: seq<nat>)
    returns (out: Bytes)
    requires buf.Length == OUTPUT_BUFFER_SIZE && raw.Length == OUTPUT_RAW_BUFFER_SIZE && buf != raw
    requires AllAllowed(cs) && n <= buf.Length && buf[..n] == Utf8Of(cs)
    modifies raw
    ensures out == if encoding.Utf8? then Utf8Of(cs) else Recoded(encoding.little, cs)
    ensures TextOf(encoding, out) == Text(cs, true) <==> encoding.Utf8? || AllSurvive(cs)
  {
    if encoding.Utf8? {
      ReadBack(cs);
      out := buf[..n];
    } else {
      RecodedExactly(encoding.little, cs);
      var last := Recode(buf, n, encoding.little, raw, cs);
      out := raw[..last];
    }
  }
}
