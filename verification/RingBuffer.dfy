/** The ring buffer of the TCP relay.  Bytes are written, handed over (read_finish) and, later, released
    (read_release); cells of handed-over bytes stay taken until then. */
module RingBuffer {
  import opened Ordering

  /** A position that has run over the end goes on at the start. */
  function Wrap(x: nat, max: nat): (r: nat)
    requires x < 2 * max
    ensures r < max
  {
    if x < max then x else x - max
  }

  lemma {:induction false} WrapIsMod(x: nat, max: nat)
    requires x < 2 * max
    ensures x % max == Wrap(x, max)
  {}

  /** A stretch of the data array. */
  datatype Window = Window(from: nat, len: nat)

  function Bytes(data: seq<Byte>, ws: seq<Window>): seq<Byte>
    requires forall w | w in ws :: w.from + w.len <= |data|
  {
    if ws == [] then [] else Bytes(data, ws[..|ws| - 1]) + data[ws[|ws| - 1].from..ws[|ws| - 1].from + ws[|ws| - 1].len]
  }

  /** `len` cells from `from` on, around the end if need be. */
  function Arc(from: nat, len: nat, max: nat): (ws: seq<Window>)
    requires from < max && len <= max
    ensures forall w | w in ws :: w.from + w.len <= max
  {
    var upper := max - from;
    if len == 0 then []
    else if len <= upper then [Window(from, len)]
    else [Window(from, upper), Window(0, len - upper)]
  }

  /** The cells from `from` on hold `s`. */
  ghost predicate Holds(data: seq<Byte>, from: nat, s: seq<Byte>) {
    from < |data| && |s| <= |data| && forall k {:trigger s[k]} | 0 <= k < |s| :: data[Wrap(from + k, |data|)] == s[k]
  }

  lemma {:induction false} HoldsSplit(data: seq<Byte>, from: nat, a: seq<Byte>, b: seq<Byte>)
    requires from < |data| && |a| + |b| <= |data|
    ensures Holds(data, from, a + b) <==> Holds(data, from, a) && Holds(data, Wrap(from + |a|, |data|), b)
  {
    var s, from' := a + b, Wrap(from + |a|, |data|);
    if Holds(data, from, s) {
      forall k | 0 <= k < |a| ensures data[Wrap(from + k, |data|)] == a[k] { assert s[k] == a[k]; }
      forall k | 0 <= k < |b| ensures data[Wrap(from' + k, |data|)] == b[k] { assert s[|a| + k] == b[k]; }
    }
    if Holds(data, from, a) && Holds(data, from', b) {
      forall k | 0 <= k < |s| ensures data[Wrap(from + k, |data|)] == s[k] {
        if k < |a| { assert s[k] == a[k]; } else { assert s[k] == b[k - |a|]; }
      }
    }
  }

  /** A cell beyond those of `s` does not matter. */
  lemma {:induction false} HoldsBeyond(data: seq<Byte>, from: nat, s: seq<Byte>, i: nat, x: Byte)
    requires Holds(data, from, s) && |s| <= i < |data|
    ensures Holds(data[Wrap(from + i, |data|) := x], from, s)
  {}

  lemma {:induction false} HoldsOne(data: seq<Byte>, from: nat, x: Byte)
    requires from < |data|
    ensures Holds(data, from, [x]) <==> data[from] == x
  {
    assert Wrap(from + 0, |data|) == from;
    assert [x][0] == x;
  }

  /** Writing the cell after `kept` and `b` extends `b` and leaves `kept`. */
  lemma {:induction false} PutHolds(d: seq<Byte>, first: nat, kept: seq<Byte>, b: seq<Byte>, x: Byte)
    requires Holds(d, first, kept) && |kept| + |b| < |d| && Holds(d, Wrap(first + |kept|, |d|), b)
    ensures var w := Wrap(first + |kept|, |d|); var d' := d[Wrap(w + |b|, |d|) := x];
      Holds(d', first, kept) && Holds(d', w, b + [x])
  {
    var w, taken := Wrap(first + |kept|, |d|), kept + b;
    var d' := d[Wrap(w + |b|, |d|) := x];
    HoldsSplit(d, first, kept, b);
    assert Wrap(w + |b|, |d|) == Wrap(first + |taken|, |d|);
    HoldsBeyond(d, first, taken, |taken|, x);
    HoldsOne(d', Wrap(first + |taken|, |d|), x);
    HoldsSplit(d', first, kept, b);
    HoldsSplit(d', w, b, [x]);
  }

  lemma {:induction false} SameBytes(data: seq<Byte>, from: nat, a: seq<Byte>, b: seq<Byte>)
    requires Holds(data, from, a) && Holds(data, from, b) && |a| == |b|
    ensures a == b
  {}

  lemma {:induction false} ArcBytes(data: seq<Byte>, from: nat, len: nat)
    requires from < |data| && len <= |data|
    ensures var b := Bytes(data, Arc(from, len, |data|)); |b| == len && Holds(data, from, b)
  {
    var ws := Arc(from, len, |data|);
    if |ws| == 1 {
      assert ws[..0] == [];
    } else if |ws| == 2 {
      assert ws[..1] == [ws[0]] && [ws[0]][..0] == [];
      assert Bytes(data, [ws[0]]) == data[from..];
    }
  }

  /** A cell within `use` cells from `first` on. */
  predicate Taken(c: nat, first: nat, use: nat, max: nat)
    requires first < max
  {
    (if c >= first then c - first else c + max - first) < use
  }

  predicate Covers(ws: seq<Window>, c: nat) {
    exists i | 0 <= i < |ws| :: ws[i].from <= c < ws[i].from + ws[i].len
  }

  /** The arc that starts where the taken cells end covers exactly the free cells. */
  lemma {:induction false} ArcIsFree(c: nat, first: nat, use: nat, max: nat)
    requires c < max && first < max && use <= max
    ensures Covers(Arc(Wrap(first + use, max), max - use, max), c) <==> !Taken(c, first, use, max)
  {
    var ws := Arc(Wrap(first + use, max), max - use, max);
    if !Taken(c, first, use, max) {
      assert |ws| >= 1;
      assert ws[0].from <= c < ws[0].from + ws[0].len || (|ws| == 2 && ws[1].from <= c < ws[1].from + ws[1].len);
    }
  }

  class RingBuffer {
    const data: array<Byte>
    var rp: nat
    var wp: nat
    var rdaSize: nat
    var useSize: nat
    ghost var first: nat             // the oldest cell that is taken
    ghost var flight: seq<Byte>      // handed over and not released
    ghost var ready: seq<Byte>       // written and not handed over

    constructor (max: nat)
      requires max > 0
      ensures Valid() && fresh(data) && data.Length == max && flight == [] && ready == []
    {
      data := new Byte[max](_ => 0);
      rp, wp, rdaSize, useSize, first, flight, ready := 0, 0, 0, 0, 0, [], [];
    }

    ghost predicate Valid()
      reads this, data
    {
      && data.Length > 0 && first < data.Length && useSize == |flight| + |ready| <= data.Length && rdaSize == |ready|
      && rp == Wrap(first + |flight|, data.Length) && wp == Wrap(first + useSize, data.Length)
      && Holds(data[..], first, flight + ready)
    }

    /** The windows of the bytes that wait to be handed over. */
    method Reading() returns (ws: seq<Window>)
      requires Valid()
      ensures (forall w | w in ws :: w.from + w.len <= data.Length) && Bytes(data[..], ws) == ready
      ensures |ws| <= 2 && (ws == [] <==> ready == [])
    {
      ws := [];
      HoldsSplit(data[..], first, flight, ready);
      ArcBytes(data[..], rp, rdaSize);
      SameBytes(data[..], rp, ready, Bytes(data[..], Arc(rp, rdaSize, data.Length)));
      if rdaSize != 0 {
        var upper := data.Length - rp;
        if rdaSize <= upper {
          ws := [Window(rp, rdaSize)];
        } else {
          ws := [Window(rp, upper), Window(0, rdaSize - upper)];
        }
      }
      assert ws == Arc(rp, rdaSize, data.Length);
    }

    /** The windows of the free cells. */
    method Writing() returns (ws: seq<Window>)
      requires Valid()
      ensures ws == Arc(wp, data.Length - useSize, data.Length) && (ws == [] <==> useSize == data.Length)
      ensures forall c: nat | c < data.Length :: Covers(ws, c) <==> !Taken(c, first, useSize, data.Length)
    {
      forall c: nat | c < data.Length ensures Covers(Arc(wp, data.Length - useSize, data.Length), c) <==>
          !Taken(c, first, useSize, data.Length) {
        ArcIsFree(c, first, useSize, data.Length);
      }
      ws := [];
      if useSize != data.Length {
        var upper, space := data.Length - wp, data.Length - useSize;
        if space <= upper {
          ws := [Window(wp, space)];
        } else {
          ws := [Window(wp, upper), Window(0, space - upper)];
        }
      }
    }

    /** The first `size` waiting bytes are handed over. */
    method ReadFinish(size: nat)
      requires Valid() && size <= |ready|
      modifies this
      ensures Valid() && flight == old(flight) + old(ready)[..size] && ready == old(ready)[size..]
    {
      WrapIsMod(rp + size, data.Length);
      rp := (rp + size) % data.Length;
      rdaSize := rdaSize - size;
      assert flight + ready == flight + ready[..size] + ready[size..];
      flight, ready := flight + ready[..size], ready[size..];
    }

    /** The oldest `size` handed-over bytes are released; an empty buffer starts again at its first cell. */
    method ReadRelease(size: nat)
      requires Valid() && size <= |flight|
      modifies this
      ensures Valid() && flight == old(flight)[size..] && ready == old(ready)
    {
      assert flight + ready == flight[..size] + (flight[size..] + ready);
      HoldsSplit(data[..], first, flight[..size], flight[size..] + ready);
      first := Wrap(first + size, data.Length);
      flight := flight[size..];
      useSize := useSize - size;
      if useSize == 0 {
        rp, wp, first := 0, 0, 0;
      }
    }

    /** readv: bytes arrive in the first free cells, in order. */
    method Fill(b: seq<Byte>)
      requires Valid() && useSize + |b| <= data.Length
      modifies data
      ensures Valid() && Holds(data[..], wp, b)
    {
      for i := 0 to |b|
        invariant Valid() && Holds(data[..], wp, b[..i])
      {
        assert b[..i + 1] == b[..i] + [b[i]];
        Put(i, b[i], b[..i]);
      }
      assert b[..|b|] == b;
    }

    /** A free cell is written; no taken cell changes. */
    method Put(i: nat, x: Byte, ghost b: seq<Byte>)
      requires Valid() && i == |b| && useSize + i < data.Length && Holds(data[..], wp, b)
      modifies data
      ensures Valid() && Holds(data[..], wp, b + [x])
    {
      ghost var d := data[..];
      PutHolds(d, first, flight + ready, b, x);
      data[Wrap(wp + i, data.Length)] := x;
      assert data[..] == d[Wrap(wp + i, |d|) := x];
    }

    /** What has arrived waits to be handed over. */
    method WriteFinish(size: nat, ghost b: seq<Byte>)
      requires Valid() && size == |b| && useSize + size <= data.Length && Holds(data[..], wp, b)
      modifies this
      ensures Valid() && flight == old(flight) && ready == old(ready) + b
    {
      WrapIsMod(wp + size, data.Length);
      HoldsSplit(data[..], first, flight + ready, b);
      assert flight + ready + b == flight + (ready + b);
      wp := (wp + size) % data.Length;
      useSize, rdaSize := useSize + size, rdaSize + size;
      ready := ready + b;
    }
  }
}
