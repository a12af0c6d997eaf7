/** The growing ring buffer behind campaign windows
    (pkg/analyzer/aidetection/ring.go). */
module EventRing {

  /** minRingGrowth. */
  const MIN_RING_GROWTH: nat := 8

  class EventRing<T(0)> {
    var buf: array<T>
    var head: nat
    var size: nat
    const limit: nat
    /** Go's zero value, written over what is dropped. */
    const zero: T

    /** The events held, oldest first. */
    ghost var contents: seq<T>

    ghost predicate Valid()
      reads this, buf
    {
      && 1 <= limit && buf.Length <= limit
      && size == |contents| <= buf.Length
      && (if buf.Length == 0 then head == 0 else head < buf.Length)
      && forall i :: 0 <= i < size ==> contents[i] == buf[Physical(i)]
    }

    /** newEventRing. */
    constructor (limit: int, zero: T)
      ensures Valid() && contents == [] && fresh(buf)
      ensures this.limit == if limit > 1 then limit else 1
    {
      this.limit := if limit > 1 then limit else 1;
      this.zero := zero;
      buf := new T[0];
      head, size, contents := 0, 0, [];
    }

    function Physical(i: nat): nat
      reads this
    {
      if head + i >= buf.Length then head + i - buf.Length else head + i
    }

    method At(i: nat) returns (v: T)
      requires Valid() && i < size
      ensures v == contents[i]
    {
      v := buf[Physical(i)];
    }

    /** A write through the pointer At returns. */
    method Set(i: nat, v: T)
      requires Valid() && i < size
      modifies buf, this`contents
      ensures Valid() && contents == old(contents)[i := v]
    {
      buf[Physical(i)] := v;
      contents := contents[i := v];
    }

    /** A full ring overwrites its oldest event. */
    method PushBack(v: T)
      requires Valid()
      modifies this, buf
      ensures Valid() && (buf == old(buf) || fresh(buf))
      ensures contents == (if |old(contents)| == limit then old(contents)[1..] else old(contents)) + [v]
    {
      if size == limit {
        buf[head] := v;
        head := Physical(1);
        contents := contents[1..] + [v];
      } else {
        if size == buf.Length {
          Grow();
        }
        buf[Physical(size)] := v;
        size := size + 1;
        contents := contents + [v];
      }
    }

    method Grow()
      requires Valid() && size == buf.Length < limit
      modifies this`buf, this`head
      ensures Valid() && fresh(buf) && buf.Length > size && head == 0
    {
      var capacity := if 2 * buf.Length > MIN_RING_GROWTH then 2 * buf.Length else MIN_RING_GROWTH;
      capacity := if capacity < limit then capacity else limit;
      var grown := new T[capacity];
      var i := 0;
      while i < size
        modifies grown
        invariant 0 <= i <= size && fresh(grown) && grown.Length == capacity
        invariant forall j :: 0 <= j < i ==> grown[j] == contents[j]
      {
        grown[i] := buf[Physical(i)];
        i := i + 1;
      }
      buf := grown;
      head := 0;
    }

    method DropFront(n: nat)
      requires Valid()
      modifies this`head, this`size, this`contents, buf
      ensures Valid() && contents == old(contents)[if n < |old(contents)| then n else |old(contents)|..]
    {
      var m := if n < size then n else size;
      ghost var was := contents;
      var i := 0;
      while i < m
        invariant 0 <= i <= m && size == |was| - i && contents == was[i..] && Valid()
      {
        buf[head] := zero;
        head := Physical(1);
        size := size - 1;
        contents := contents[1..];
        i := i + 1;
      }
      if size == 0 {
        head := 0;
      }
    }
  }
}
