/** UTF-8 (section 3 of RFC 3629) and UTF-16 (section 2 of RFC 2781) as the YAML reader and writer see them. */
module Unicode {
  import opened Options
  import opened Ordering

  type Bytes = Key

  datatype Encoding = Utf8 | Utf16(little: bool)

  /** The first character of some bytes; or they are too few to tell; or they are not allowed. */
  datatype Decoded = Char(value: nat, width: nat) | More | Bad

  // ---- UTF-8 ----

  function Width(octet: Byte): nat {
    if octet < 0x80 then 1
    else if 0xC0 <= octet < 0xE0 then 2
    else if 0xE0 <= octet < 0xF0 then 3
    else if 0xF0 <= octet < 0xF8 then 4
    else 0
  }

  function Lead(octet: Byte): nat {
    if octet < 0x80 then octet
    else if 0xC0 <= octet < 0xE0 then octet - 0xC0
    else if 0xE0 <= octet < 0xF0 then octet - 0xE0
    else if 0xF0 <= octet < 0xF8 then octet - 0xF0
    else 0
  }

  predicate Trailing(octet: Byte) {
    0x80 <= octet < 0xC0
  }

  /** The value that trailing octets add up to. */
  function Trail(v: nat, s: Bytes): Option<nat>
    decreases |s|
  {
    if s == [] then Some(v)
    else if Trailing(s[0]) then Trail(v * 64 + (s[0] - 0x80), s[1..])
    else None
  }

  /** The shortest sequence was used, and the value is a character. */
  predicate Proper(width: nat, v: nat) {
    && (width == 1 || (width == 2 && v >= 0x80) || (width == 3 && v >= 0x800) || (width == 4 && v >= 0x1_0000))
    && !(0xD800 <= v <= 0xDFFF) && v <= 0x10_FFFF
  }

  function DecodeUtf8(s: Bytes): Decoded
    requires s != []
  {
    var w := Width(s[0]);
    if w == 0 then Bad
    else if w > |s| then More
    else
      match Trail(Lead(s[0]), s[1..w])
      case None => Bad
      case Some(v) => if Proper(w, v) then Char(v, w) else Bad
  }

  function EncodeUtf8(v: nat): Bytes
    requires v <= 0x10_FFFF
  {
    if v <= 0x7F then [v]
    else if v <= 0x7FF then [0xC0 + v / 64, 0x80 + v % 64]
    else if v <= 0xFFFF then [0xE0 + v / 4096, 0x80 + v / 64 % 64, 0x80 + v % 64]
    else [0xF0 + v / 0x4_0000, 0x80 + v / 4096 % 64, 0x80 + v / 64 % 64, 0x80 + v % 64]
  }

  // ---- UTF-16 ----

  function Unit(little: bool, a: Byte, b: Byte): nat {
    if little then a + 256 * b else 256 * a + b
  }

  function DecodeUtf16(little: bool, s: Bytes): Decoded {
    if |s| < 2 then More
    else
      var v := Unit(little, s[0], s[1]);
      if 0xDC00 <= v <= 0xDFFF then Bad
      else if 0xD800 <= v <= 0xDBFF then
        if |s| < 4 then More
        else
          var v2 := Unit(little, s[2], s[3]);
          if 0xDC00 <= v2 <= 0xDFFF then Char(0x1_0000 + (v - 0xD800) * 1024 + (v2 - 0xDC00), 4) else Bad
      else Char(v, 2)
  }

  // ---- Texts ----

  /** The characters that YAML allows. */
  predicate Allowed(v: nat) {
    || v == 0x09 || v == 0x0A || v == 0x0D || 0x20 <= v <= 0x7E || v == 0x85 || 0xA0 <= v <= 0xD7FF
    || 0xE000 <= v <= 0xFFFD || 0x1_0000 <= v <= 0x10_FFFF
  }

  function Decode(e: Encoding, s: Bytes): Decoded
    requires s != []
  {
    var d := if e.Utf8? then DecodeUtf8(s) else DecodeUtf16(e.little, s);
    if d.Char? && !Allowed(d.value) then Bad else d
  }

  lemma {:induction false} DecodeWidth(e: Encoding, s: Bytes)
    requires s != []
    ensures Decode(e, s).Char? ==> 1 <= Decode(e, s).width <= |s| && Allowed(Decode(e, s).value)
  {}

  /** Refused are the controls other than tab, line feed, carriage return and next line; delete; the halves of
      surrogate pairs; the two last of the first plane; and what is beyond the last. */
  lemma {:induction false} RefusedExactly(v: nat)
    ensures !Allowed(v) <==>
            || (v < 32 && v != 9 && v != 10 && v != 13) || (127 <= v < 160 && v != 133)
            || 55296 <= v < 57344 || v == 65534 || v == 65535 || v > 1114111
  {}

  /** A printable character of ASCII, a tab or the end of a line. */
  predicate Plain(b: Byte) {
    b as char in "\t\n\r" || ' ' <= b as char <= '~'
  }

  /** What has been decoded does not depend on what follows. */
  lemma {:induction false} DecodeMore(e: Encoding, s: Bytes, t: Bytes)
    requires s != [] && !Decode(e, s).More?
    ensures Decode(e, s + t) == Decode(e, s)
  {
    if e.Utf8? && Width(s[0]) <= |s| {
      var w := Width(s[0]);
      assert w > 0 ==> (s + t)[1..w] == s[1..w];
    }
  }

  datatype Text = Text(chars: seq<nat>, good: bool)

  /** The characters of some bytes up to the first mistake. */
  function TextOf(e: Encoding, s: Bytes): Text
    decreases |s|
  {
    if s == [] then Text([], true)
    else
      match Decode(e, s)
      case Char(v, w) =>
        DecodeWidth(e, s);
        var rest := TextOf(e, s[w..]);
        Text([v] + rest.chars, rest.good)
      case _ => Text([], false)
  }

  /** Lines of printable ASCII are read as they are. */
  lemma {:induction false} PlainText(s: Bytes)
    requires forall k | 0 <= k < |s| :: Plain(s[k])
    ensures TextOf(Utf8, s) == Text(s, true)
    decreases |s|
  {
    if s != [] {
      assert Plain(s[0]) && s[1..1] == [];
      PlainText(s[1..]);
      assert [s[0]] + s[1..] == s;
    }
  }

  // ---- Characters and their UTF-8 ----

  predicate AllAllowed(cs: seq<nat>) {
    forall k | 0 <= k < |cs| :: Allowed(cs[k])
  }

  function Utf8Of(cs: seq<nat>): Bytes
    requires AllAllowed(cs)
  {
    if cs == [] then [] else EncodeUtf8(cs[0]) + Utf8Of(cs[1..])
  }

  lemma {:induction false} TrailOne(v: nat, a: Byte)
    requires Trailing(a)
    ensures Trail(v, [a]) == Some(v * 64 + (a - 0x80))
  {
    assert [a][1..] == [];
  }

  lemma {:induction false} TrailTwo(v: nat, a: Byte, b: Byte)
    requires Trailing(a) && Trailing(b)
    ensures Trail(v, [a, b]) == Some((v * 64 + (a - 0x80)) * 64 + (b - 0x80))
  {
    assert [a, b][1..] == [b];
    TrailOne(v * 64 + (a - 0x80), b);
  }

  lemma {:induction false} TrailThree(v: nat, a: Byte, b: Byte, c: Byte)
    requires Trailing(a) && Trailing(b) && Trailing(c)
    ensures Trail(v, [a, b, c]) == Some(((v * 64 + (a - 0x80)) * 64 + (b - 0x80)) * 64 + (c - 0x80))
  {
    assert [a, b, c][1..] == [b, c];
    TrailTwo(v * 64 + (a - 0x80), b, c);
  }

  // ---- Digits of six bits ----

  lemma {:induction false} Digits2(v: nat, a: nat, b: nat)
    requires b < 64
    ensures v == a * 64 + b <==> a == v / 64 && b == v % 64
  {}

  lemma {:induction false} Digits3(v: nat, a: nat, b: nat, c: nat)
    requires b < 64 && c < 64
    ensures v == (a * 64 + b) * 64 + c <==> a == v / 4096 && b == v / 64 % 64 && c == v % 64
  {
    Digits2(v, a * 64 + b, c);
    Digits2(v / 64, a, b);
    assert v / 64 / 64 == v / 4096;
  }

  lemma {:induction false} Digits4(v: nat, a: nat, b: nat, c: nat, d: nat)
    requires b < 64 && c < 64 && d < 64
    ensures v == ((a * 64 + b) * 64 + c) * 64 + d <==>
            a == v / 0x4_0000 && b == v / 4096 % 64 && c == v / 64 % 64 && d == v % 64
  {
    Digits2(v, (a * 64 + b) * 64 + c, d);
    Digits3(v / 64, a, b, c);
    assert v / 64 / 64 == v / 4096 && v / 64 / 4096 == v / 0x4_0000;
  }

  // ---- Both ways ----

  lemma {:induction false} Decodes1(v: nat, s: Bytes)
    requires v <= 0x7F && s != [] && s[0] == v
    ensures DecodeUtf8(s) == Char(v, 1)
  {
    assert s[1..1] == [];
  }

  lemma {:induction false} Decodes2(v: nat, s: Bytes)
    requires 0x80 <= v <= 0x7FF && |s| >= 2 && s[..2] == EncodeUtf8(v)
    ensures DecodeUtf8(s) == Char(v, 2)
  {
    var e := EncodeUtf8(v);
    assert s[0] == e[0] && s[1..2] == [e[1]];
    TrailOne(v / 64, e[1]);
    Digits2(v, v / 64, v % 64);
  }

  lemma {:induction false} Decodes3(v: nat, s: Bytes)
    requires 0x800 <= v <= 0xFFFF && !(0xD800 <= v <= 0xDFFF) && |s| >= 3 && s[..3] == EncodeUtf8(v)
    ensures DecodeUtf8(s) == Char(v, 3)
  {
    var e := EncodeUtf8(v);
    assert s[0] == e[0] && s[1..3] == [e[1], e[2]];
    TrailTwo(v / 4096, e[1], e[2]);
    Digits3(v, v / 4096, v / 64 % 64, v % 64);
  }

  lemma {:induction false} Decodes4(v: nat, s: Bytes)
    requires 0x1_0000 <= v <= 0x10_FFFF && |s| >= 4 && s[..4] == EncodeUtf8(v)
    ensures DecodeUtf8(s) == Char(v, 4)
  {
    var e := EncodeUtf8(v);
    assert s[0] == e[0] && s[1..4] == [e[1], e[2], e[3]];
    TrailThree(v / 0x4_0000, e[1], e[2], e[3]);
    Digits4(v, v / 0x4_0000, v / 4096 % 64, v / 64 % 64, v % 64);
  }

  /** What is encoded is decoded. */
  lemma {:induction false} EncodedDecodes(v: nat, t: Bytes)
    requires v <= 0x10_FFFF && !(0xD800 <= v <= 0xDFFF)
    ensures DecodeUtf8(EncodeUtf8(v) + t) == Char(v, |EncodeUtf8(v)|)
  {
    var b := EncodeUtf8(v);
    var s := b + t;
    assert s[..|b|] == b;
    if v <= 0x7F {
      Decodes1(v, s);
    } else if v <= 0x7FF {
      Decodes2(v, s);
    } else if v <= 0xFFFF {
      Decodes3(v, s);
    } else {
      Decodes4(v, s);
    }
  }

  lemma {:induction false} TrailTrailing(v: nat, s: Bytes, k: nat)
    requires Trail(v, s).Some? && k < |s|
    ensures Trailing(s[k])
    decreases |s|
  {
    if k > 0 {
      TrailTrailing(v * 64 + (s[0] - 0x80), s[1..], k - 1);
    }
  }

  lemma {:induction false} Encodes2(s: Bytes)
    requires |s| >= 2 && Width(s[0]) == 2 && DecodeUtf8(s).Char?
    ensures EncodeUtf8(DecodeUtf8(s).value) == s[..2]
  {
    var v, a := DecodeUtf8(s).value, Lead(s[0]);
    assert s[1..2] == [s[1]];
    TrailTrailing(a, s[1..2], 0);
    TrailOne(a, s[1]);
    Digits2(v, a, s[1] - 0x80);
  }

  lemma {:induction false} Encodes3(s: Bytes)
    requires |s| >= 3 && Width(s[0]) == 3 && DecodeUtf8(s).Char?
    ensures EncodeUtf8(DecodeUtf8(s).value) == s[..3]
  {
    var v, a := DecodeUtf8(s).value, Lead(s[0]);
    assert s[1..3] == [s[1], s[2]];
    TrailTrailing(a, s[1..3], 0);
    TrailTrailing(a, s[1..3], 1);
    TrailTwo(a, s[1], s[2]);
    Digits3(v, a, s[1] - 0x80, s[2] - 0x80);
  }

  lemma {:induction false} Encodes4(s: Bytes)
    requires |s| >= 4 && Width(s[0]) == 4 && DecodeUtf8(s).Char?
    ensures EncodeUtf8(DecodeUtf8(s).value) == s[..4]
  {
    var v, a := DecodeUtf8(s).value, Lead(s[0]);
    assert s[1..4] == [s[1], s[2], s[3]];
    TrailTrailing(a, s[1..4], 0);
    TrailTrailing(a, s[1..4], 1);
    TrailTrailing(a, s[1..4], 2);
    TrailThree(a, s[1], s[2], s[3]);
    Digits4(v, a, s[1] - 0x80, s[2] - 0x80, s[3] - 0x80);
  }

  /** What is decoded was encoded. */
  lemma {:induction false} DecodedEncodes(s: Bytes)
    requires s != [] && DecodeUtf8(s).Char?
    ensures var d := DecodeUtf8(s); d.value <= 0x10_FFFF && d.width <= |s| && EncodeUtf8(d.value) == s[..d.width]
  {
    var w := Width(s[0]);
    if w == 1 {
      assert s[1..1] == [];
    } else if w == 2 {
      Encodes2(s);
    } else if w == 3 {
      Encodes3(s);
    } else {
      Encodes4(s);
    }
  }

  // ---- UTF-8 texts ----

  lemma {:induction false} TextStep(e: Encoding, s: Bytes, v: nat, w: nat, rest: Text)
    requires s != [] && Decode(e, s) == Char(v, w) && w <= |s| && TextOf(e, s[w..]) == rest
    ensures TextOf(e, s) == Text([v] + rest.chars, rest.good) && Allowed(v)
  {}

  lemma {:induction false} SamePrefix(a: Bytes, x: Bytes, y: Bytes)
    requires x <= y
    ensures a + x <= a + y && (x == y <==> a + x == a + y)
  {
    assert a + x == a + y ==> x == (a + x)[|a|..] == (a + y)[|a|..] == y;
  }

  lemma {:induction false} Utf8Step(v: nat, cs: seq<nat>)
    requires Allowed(v) && AllAllowed(cs)
    ensures AllAllowed([v] + cs) && Utf8Of([v] + cs) == EncodeUtf8(v) + Utf8Of(cs)
  {
    assert ([v] + cs)[1..] == cs;
  }

  /** The text is the beginning of the bytes, and all of them if it is good. */
  predicate Reproduces(t: Text, s: Bytes) {
    AllAllowed(t.chars) && Utf8Of(t.chars) <= s && (t.good <==> Utf8Of(t.chars) == s)
  }

  lemma {:induction false} ReproducesMore(v: nat, w: nat, t: Text, s: Bytes, all: Text)
    requires Allowed(v) && w <= |s| && EncodeUtf8(v) == s[..w] && Reproduces(t, s[w..])
    requires all == Text([v] + t.chars, t.good)
    ensures Reproduces(all, s)
  {
    Utf8Step(v, t.chars);
    SamePrefix(s[..w], Utf8Of(t.chars), s[w..]);
    assert s == s[..w] + s[w..];
  }

  /** UTF-8 input is reproduced byte by byte, up to the first mistake. */
  lemma {:induction false} Reproduced(s: Bytes)
    ensures Reproduces(TextOf(Utf8, s), s)
    decreases |s|
  {
    if s != [] && Decode(Utf8, s).Char? {
      var v, w := Decode(Utf8, s).value, Decode(Utf8, s).width;
      DecodeWidth(Utf8, s);
      DecodedEncodes(s);
      Reproduced(s[w..]);
      TextStep(Utf8, s, v, w, TextOf(Utf8, s[w..]));
      ReproducesMore(v, w, TextOf(Utf8, s[w..]), s, TextOf(Utf8, s));
    }
  }

  /** Every allowed text is read back from its UTF-8. */
  lemma {:induction false} ReadBack(cs: seq<nat>)
    requires AllAllowed(cs)
    ensures TextOf(Utf8, Utf8Of(cs)) == Text(cs, true)
    decreases |cs|
  {
    if cs != [] {
      assert Allowed(cs[0]);
      var b, rest := EncodeUtf8(cs[0]), Utf8Of(cs[1..]);
      EncodedDecodes(cs[0], rest);
      assert (b + rest)[|b|..] == rest;
      ReadBack(cs[1..]);
    }
  }

  lemma {:induction false} FirstOctet(s: Bytes, v: nat, t: Bytes)
    requires Allowed(v) && s == EncodeUtf8(v) + t
    ensures s != [] && 1 <= Width(s[0]) == |EncodeUtf8(v)| <= |s| && Trail(Lead(s[0]), s[1..Width(s[0])]) == Some(v)
  {
    EncodedDecodes(v, t);
  }

  /** The first character of a text and the bytes behind it. */
  lemma {:induction false} TakeFirst(s: Bytes, cs: seq<nat>, tail: Bytes, v: nat, more: seq<nat>, w: nat)
    requires AllAllowed(cs) && cs == [v] + more && s == Utf8Of(cs) + tail && w == |EncodeUtf8(v)|
    ensures Allowed(v) && AllAllowed(more) && s != [] && Width(s[0]) == w <= |s|
    ensures s[..w] == EncodeUtf8(v) && s[w..] == Utf8Of(more) + tail
  {
    assert Allowed(cs[0]) && cs[1..] == more;
    var b, c := EncodeUtf8(v), Utf8Of(more);
    assert s == b + (c + tail);
    FirstOctet(s, v, c + tail);
  }
}
