/** The string operations that the URI parser and printer are made of. */
module Text {
  /** The first place of a character, or -1. */
  function Find(s: string, c: char): (i: int)
    ensures -1 <= i < |s|
    ensures i >= 0 ==> s[i] == c && c !in s[..i]
    ensures i < 0 <==> c !in s
  {
    if s == "" then -1
    else if s[0] == c then 0
    else
      var i := Find(s[1..], c);
      assert s == [s[0]] + s[1..];
      assert i >= 0 ==> s[..i + 1] == [s[0]] + s[1..][..i];
      if i < 0 then -1 else i + 1
  }

  /** The last place of a character, or -1. */
  function FindLast(s: string, c: char): (i: int)
    ensures -1 <= i < |s|
    ensures i >= 0 ==> s[i] == c && c !in s[i + 1..]
    ensures i < 0 <==> c !in s
  {
    if s == "" then -1
    else
      var n := |s| - 1;
      if s[n] == c then n
      else
        var i := FindLast(s[..n], c);
        assert s == s[..n] + [s[n]];
        assert i >= 0 ==> s[i + 1..] == s[..n][i + 1..] + [s[n]];
        i
  }

  lemma {:induction false} FindIn(a: string, c: char, b: string)
    requires c !in a
    ensures Find(a + [c] + b, c) == |a|
  {
    var s := a + [c] + b;
    var i := Find(s, c);
    assert s[|a|] == c;
    assert forall j | |a| < j <= |s| :: s[..j][|a|] == c;
  }

  lemma {:induction false} FindLastIn(a: string, c: char, b: string)
    requires c !in b
    ensures FindLast(a + [c] + b, c) == |a|
  {
    var s := a + [c] + b;
    var i := FindLast(s, c);
    assert s[|a|] == c;
    assert forall j | 0 <= j <= |a| :: s[j..][|a| - j] == c;
  }

  /** A string cut at a separator; without one, `found` is false and all of it is the front. */
  datatype Cut = Cut(found: bool, front: string, back: string)

  function CutFirst(s: string, c: char): (r: Cut)
    ensures c !in r.front && (forall x | x in r.front || x in r.back :: x in s)
  {
    var i := Find(s, c);
    if i < 0 then Cut(false, s, "") else Cut(true, s[..i], s[i + 1..])
  }

  function CutLast(s: string, c: char): (r: Cut)
    ensures c !in r.back && (forall x | x in r.front || x in r.back :: x in s)
  {
    var i := FindLast(s, c);
    if i < 0 then Cut(false, s, "") else Cut(true, s[..i], s[i + 1..])
  }

  lemma {:induction false} CutFirstIn(a: string, c: char, b: string)
    requires c !in a
    ensures CutFirst(a + [c] + b, c) == Cut(true, a, b)
  {
    FindIn(a, c, b);
    assert (a + [c] + b)[..|a|] == a && (a + [c] + b)[|a| + 1..] == b;
  }

  lemma {:induction false} CutLastIn(a: string, c: char, b: string)
    requires c !in b
    ensures CutLast(a + [c] + b, c) == Cut(true, a, b)
  {
    FindLastIn(a, c, b);
    assert (a + [c] + b)[..|a|] == a && (a + [c] + b)[|a| + 1..] == b;
  }

  /** The pieces between the separators. */
  function Split(s: string, c: char): (r: seq<string>)
    ensures r != []
    decreases |s|
  {
    var i := Find(s, c);
    if i < 0 then [s] else [s[..i]] + Split(s[i + 1..], c)
  }

  predicate Free(parts: seq<string>, c: char) {
    forall k | 0 <= k < |parts| :: c !in parts[k]
  }

  lemma {:induction false} FreeCons(front: string, rest: seq<string>, c: char)
    requires c !in front && Free(rest, c)
    ensures Free([front] + rest, c)
  {}

  lemma {:induction false} SplitFree(s: string, c: char)
    ensures Free(Split(s, c), c)
    decreases |s|
  {
    var i := Find(s, c);
    if i >= 0 {
      SplitFree(s[i + 1..], c);
      FreeCons(s[..i], Split(s[i + 1..], c), c);
    }
  }

  lemma {:induction false} SplitAt(front: string, c: char, rest: string)
    requires c !in front
    ensures Split(front + [c] + rest, c) == [front] + Split(rest, c)
  {
    var s := front + [c] + rest;
    FindIn(front, c, rest);
    assert s[..|front|] == front && s[|front| + 1..] == rest;
  }

  lemma {:induction false} CutThrice(a: string, i: nat, c: char, b: string)
    requires i < |a| && a[i] == c
    ensures a + [c] + b == a[..i] + [c] + (a[i + 1..] + [c] + b)
  {}

  lemma {:induction false} SplitAppend(a: string, c: char, b: string)
    ensures Split(a + [c] + b, c) == Split(a, c) + Split(b, c)
    decreases |a|
  {
    var i := Find(a, c);
    if i < 0 {
      SplitAt(a, c, b);
    } else {
      var front, rest := a[..i], a[i + 1..];
      CutThrice(a, i, c, b);
      SplitAt(front, c, rest + [c] + b);
      SplitAppend(rest, c, b);
      SplitStep(a, c, i);
      ConsAppend(front, Split(rest, c), Split(b, c));
    }
  }

  lemma {:induction false} SplitStep(a: string, c: char, i: nat)
    requires Find(a, c) == i
    ensures Split(a, c) == [a[..i]] + Split(a[i + 1..], c)
  {}

  lemma {:induction false} ConsAppend<T>(x: T, s: seq<T>, t: seq<T>)
    ensures [x] + s + t == [x] + (s + t)
  {}

  /** A separator in the second part of a string is the separator of the whole. */
  lemma {:induction false} CutLater(a: string, b: string, c: char)
    requires c !in a
    ensures CutFirst(a + b, c).front == a + CutFirst(b, c).front
  {
    var i := Find(b, c);
    if i < 0 {
      assert Find(a + b, c) < 0;
    } else {
      assert a + b == (a + b[..i]) + [c] + b[i + 1..];
      CutFirstIn(a + b[..i], c, b[i + 1..]);
    }
  }

  lemma {:induction false} SplitFront(s: string, c: char)
    ensures Split(s, c)[0] == CutFirst(s, c).front
  {}

  function Join(parts: seq<string>, c: char): string {
    if parts == [] then "" else if |parts| == 1 then parts[0] else parts[0] + [c] + Join(parts[1..], c)
  }

  lemma {:induction false} SplitJoin(parts: seq<string>, c: char)
    requires parts != [] && Free(parts, c)
    ensures Split(Join(parts, c), c) == parts
    decreases |parts|
  {
    if |parts| > 1 {
      var s, rest := Join(parts, c), Join(parts[1..], c);
      FindIn(parts[0], c, rest);
      assert s == parts[0] + [c] + rest;
      assert s[..|parts[0]|] == parts[0] && s[|parts[0]| + 1..] == rest;
      SplitJoin(parts[1..], c);
    } else {
      assert parts == [parts[0]];
    }
  }

  // ---- Slashes in paths ----

  /** replace ("/", "%2F") */
  function Escape(s: string): string {
    if s == "" then "" else if s[0] == '/' then "%2F" + Escape(s[1..]) else [s[0]] + Escape(s[1..])
  }

  predicate CodeAt(s: string, i: nat) {
    i + 3 <= |s| && s[i] == '%' && s[i + 1] == '2' && s[i + 2] == 'F'
  }

  predicate HasCode(s: string) {
    exists i: nat | i < |s| :: CodeAt(s, i)
  }

  /** replace ("%2F", "/") */
  function Unescape(s: string): string
    decreases |s|
  {
    if s == "" then "" else if CodeAt(s, 0) then "/" + Unescape(s[3..]) else [s[0]] + Unescape(s[1..])
  }

  /** No escape comes into being where there was none. */
  lemma {:induction false} EscapeFront(s: string)
    requires s != "" && s[0] != '/' && CodeAt(Escape(s), 0)
    ensures CodeAt(s, 0)
  {
    assert Escape(s)[1..] == Escape(s[1..]);
    assert s[1..] != "" && s[1] == '2';
    assert Escape(s[1..])[1..] == Escape(s[2..]) by { assert s[1..][1..] == s[2..]; }
  }

  lemma {:induction false} HasCodeTail(s: string, n: nat)
    requires n <= |s| && HasCode(s[n..])
    ensures HasCode(s)
  {
    var i: nat :| i < |s[n..]| && CodeAt(s[n..], i);
    assert CodeAt(s, n + i);
  }

  /** A path comes back from its escaped form exactly if it does not hold an escape itself. */
  lemma {:induction false} EscapeRoundTrip(s: string)
    ensures |Unescape(Escape(s))| <= |s|
    ensures Unescape(Escape(s)) == s <==> !HasCode(s)
    ensures HasCode(s) ==> |Unescape(Escape(s))| < |s|
    decreases |s|
  {
    if s != "" {
      var e := Escape(s);
      if s[0] == '/' {
        assert e[3..] == Escape(s[1..]);
        EscapeRoundTrip(s[1..]);
        CodeInTail(s);
      } else if CodeAt(s, 0) {
        CodeEscapes(s);
        EscapeRoundTrip(s[3..]);
      } else {
        if CodeAt(e, 0) {
          EscapeFront(s);
        }
        assert e[1..] == Escape(s[1..]);
        EscapeRoundTrip(s[1..]);
        CodeInTail(s);
      }
    }
  }

  lemma {:induction false} CodeInTail(s: string)
    requires s != "" && !CodeAt(s, 0)
    ensures HasCode(s) <==> HasCode(s[1..])
  {
    if HasCode(s) {
      var i: nat :| i < |s| && CodeAt(s, i);
      assert CodeAt(s[1..], i - 1);
    }
    if HasCode(s[1..]) {
      HasCodeTail(s, 1);
    }
  }

  lemma {:induction false} CodeEscapes(s: string)
    requires CodeAt(s, 0)
    ensures HasCode(s) && CodeAt(Escape(s), 0) && Escape(s)[3..] == Escape(s[3..])
  {
    assert s[1..][0] == '2' && s[1..][1..] == s[2..] && s[2..][0] == 'F' && s[2..][1..] == s[3..];
    assert Escape(s[2..]) == ['F'] + Escape(s[3..]);
    assert Escape(s[1..]) == ['2'] + Escape(s[2..]);
    assert Escape(s) == ['%'] + Escape(s[1..]);
    assert Escape(s) == "%2F" + Escape(s[3..]);
  }

  lemma {:induction false} EscapeChars(s: string, c: char)
    requires c != '/' && c != '%' && c != '2' && c != 'F'
    ensures c in Escape(s) <==> c in s
    decreases |s|
  {
    if s != "" {
      EscapeChars(s[1..], c);
      assert s == [s[0]] + s[1..];
    }
  }

  lemma {:induction false} UnescapeChars(s: string, c: char)
    requires c != '/' && c !in s
    ensures c !in Unescape(s)
    decreases |s|
  {
    if s != "" {
      UnescapeChars(if CodeAt(s, 0) then s[3..] else s[1..], c);
    }
  }

  lemma {:induction false} UnescapeFront(s: string)
    requires Unescape(s) != "" && Unescape(s)[0] != '/'
    ensures s != "" && s[0] == Unescape(s)[0] && Unescape(s)[1..] == Unescape(s[1..])
  {}

  /** Decoding leaves nothing to decode. */
  lemma {:induction false} UnescapeNoCode(s: string)
    ensures !HasCode(Unescape(s))
    decreases |s|
  {
    var u := Unescape(s);
    if s != "" {
      UnescapeNoCode(if CodeAt(s, 0) then s[3..] else s[1..]);
      if CodeAt(u, 0) {
        UnescapeFront(s);
        UnescapeFront(s[1..]);
        UnescapeFront(s[2..]);
      }
      CodeInTail(u);
    }
  }
}
