/** The two orders in which the tree's clients keep their keys: strcmp on names without NUL bytes, and
    the authenticator's order by length and then by bytes. */
module Ordering {
  type Byte = x: int | 0 <= x < 256

  type Key = seq<Byte>

  datatype Order = Strcmp | LengthFirst

  /** memcmp on equal lengths; on other lengths a proper prefix is smaller, as the terminating NUL makes it. */
  function CompareBytes(a: Key, b: Key): (r: int)
    ensures r == 0 <==> a == b
  {
    if a == [] || b == [] then |a| - |b|
    else if a[0] != b[0] then a[0] - b[0]
    else assert a == [a[0]] + a[1..] && b == [b[0]] + b[1..]; CompareBytes(a[1..], b[1..])
  }

  function Compare(ord: Order, a: Key, b: Key): (r: int)
    ensures r == 0 <==> a == b
  {
    if ord.LengthFirst? && |a| < |b| then -1
    else if ord.LengthFirst? && |a| > |b| then 1
    else CompareBytes(a, b)
  }

  predicate Less(ord: Order, a: Key, b: Key) {
    Compare(ord, a, b) < 0
  }

  lemma {:induction false} CompareBytesOrder(a: Key, b: Key, c: Key)
    ensures CompareBytes(a, b) < 0 <==> CompareBytes(b, a) > 0
    ensures CompareBytes(a, b) < 0 && CompareBytes(b, c) < 0 ==> CompareBytes(a, c) < 0
  {
    if a != [] && b != [] {
      CompareBytesOrder(a[1..], b[1..], if c == [] then [] else c[1..]);
    }
  }

  /** Both orders are strict and total. */
  lemma {:induction false} LessOrder(ord: Order, a: Key, b: Key, c: Key)
    ensures Less(ord, a, b) <==> Compare(ord, b, a) > 0
    ensures Less(ord, a, b) && Less(ord, b, c) ==> Less(ord, a, c)
    ensures a == b || Less(ord, a, b) || Less(ord, b, a)
  {
    CompareBytesOrder(a, b, c);
    CompareBytesOrder(b, a, c);
  }
}
