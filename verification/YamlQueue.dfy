/** The queue of the YAML library: a buffer that is doubled when it is full and compacted when its end is reached. */
module YamlQueue {

  class Queue<T(0)> {
    var buf: array<T>
    var head: nat
    var tail: nat

    ghost predicate Valid()
      reads this
    {
      head <= tail <= buf.Length && buf.Length > 0
    }

    ghost function Contents(): seq<T>
      requires Valid()
      reads this, buf
    {
      buf[head..tail]
    }

    constructor (size: nat)
      requires size > 0
      ensures Valid() && fresh(buf) && Contents() == []
    {
      buf := new T[size];
      head, tail := 0, 0;
    }

    predicate Empty()
      requires Valid()
      reads this, buf
      ensures Empty() <==> Contents() == []
    {
      head == tail
    }

    function Count(): (n: nat)
      requires Valid()
      reads this, buf
      ensures n == |Contents()|
    {
      tail - head
    }

    function At(i: nat): (x: T)
      requires Valid() && i < Count()
      reads this, buf
      ensures x == Contents()[i]
    {
      buf[head + i]
    }

    /** yaml_queue_extend: there is space behind the last element, and the elements are the same. */
    method Extend()
      requires Valid()
      modifies this, buf
      ensures Valid() && Contents() == old(Contents()) && tail < buf.Length
      ensures buf == old(buf) || fresh(buf)
    {
      if head == 0 && tail == buf.Length {
        Double();
      }
      if tail == buf.Length {
        Compact();
      }
    }

    method Double()
      requires Valid()
      modifies this`buf
      ensures Valid() && Contents() == old(Contents()) && fresh(buf) && buf.Length == 2 * old(buf.Length)
    {
      var larger := new T[2 * buf.Length];
      for k := 0 to buf.Length
        invariant larger[..k] == buf[..k]
        modifies larger
      {
        larger[k] := buf[k];
      }
      assert larger[head..tail] == larger[..buf.Length][head..tail];
      buf := larger;
    }

    method Compact()
      requires Valid() && head > 0
      modifies this`head, this`tail, buf
      ensures Valid() && Contents() == old(Contents()) && head == 0 && tail < buf.Length
    {
      var n := tail - head;
      for k := 0 to n
        invariant buf[..k] == old(buf[head..head + k]) && buf[head + k..tail] == old(buf[head + k..tail])
        modifies buf
      {
        assert buf[head + k] == buf[head + k..tail][0] == old(buf[head + k..tail])[0];
        buf[k] := buf[head + k];
        assert buf[head + k + 1..tail] == old(buf[head + k..tail])[1..];
      }
      head, tail := 0, n;
    }

    method Enqueue(x: T)
      requires Valid()
      modifies this, buf
      ensures Valid() && Contents() == old(Contents()) + [x] && (buf == old(buf) || fresh(buf))
    {
      if tail == buf.Length {
        Extend();
      }
      buf[tail] := x;
      tail := tail + 1;
    }

    method Dequeue() returns (x: T)
      requires Valid() && Contents() != []
      modifies this`head
      ensures Valid() && x == old(Contents())[0] && Contents() == old(Contents())[1..]
    {
      x := buf[head];
      head := head + 1;
    }
  }
}
