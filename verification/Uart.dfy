/** The UART queues: rings of fixed size with overrun accounting, and a snapshot that
    stores them from any position in a straight line. */
module Uart {
  import opened Arith

  /** A byte as the set of its one bits. */
  type Byte = set<nat>

  const SIZE := 4096

  /** A position counted round the ring. */
  function Around(i: nat): (r: nat)
    ensures r < SIZE && (i < SIZE ==> r == i) && (SIZE <= i < 2 * SIZE ==> r == i - SIZE)
  {
    i % SIZE
  }

  function Clamped(count: nat): (n: nat)
    ensures n <= SIZE && (count <= SIZE ==> n == count)
  {
    if count > SIZE then SIZE else count
  }

  /** What a stored queue of `count` bytes from `tail` on holds: loadUartQueue's view of an
      image whose size need not be this build's.  Indices wrap at 32 bits before the size. */
  function Stored(image: seq<Byte>, tail: nat, count: nat): (q: seq<Byte>)
    ensures |q| == if image == [] then 0 else Clamped(count)
    ensures forall i :: 0 <= i < |q| ==> q[i] == image[Fold((tail + i) % TWO32, |image|)]
  {
    if image == [] then []
    else seq(Clamped(count), i requires 0 <= i => image[Fold((tail + i) % TWO32, |image|)])
  }

  /** A straight image of this build's size stores the bytes at its front. */
  lemma StoredFromFront(image: seq<Byte>, n: nat)
    requires |image| == SIZE && n <= SIZE
    ensures Stored(image, 0, n) == image[..n]
  {
    forall i | 0 <= i < n ensures Stored(image, 0, n)[i] == image[i] {
      assert Fold((0 + i) % TWO32, SIZE) == i;
    }
  }

  lemma Taken(start: seq<Byte>, buffer: seq<Byte>, k: nat)
    requires k < |buffer|
    ensures start + buffer[..k + 1] == start + buffer[..k] + [buffer[k]]
  {}

  /** The oldest byte moves from the queue to the end of what was handed out. */
  lemma Handed(front: seq<Byte>, queue: seq<Byte>, value: Byte, rest: seq<Byte>, sent: seq<Byte>)
    requires queue == [value] + rest
    ensures (front + [value]) + rest == front + queue && sent + (front + [value]) == sent + front + [value]
  {}

  lemma CutAgain(a: nat, n: nat)
    ensures (a % TWO32 + n) % TWO32 == (a + n) % TWO32
  {}

  class Ring {
    const data: array<Byte>
    var head: nat
    var tail: nat
    var count: nat
    var overruns: nat                 // uint32_t
    ghost var contents: seq<Byte>
    ghost var accepted: seq<Byte>      // every byte taken since the last reset or load
    ghost var delivered: seq<Byte>     // every byte handed out
    ghost var lost: nat               // bytes refused
    ghost var offered: nat            // bytes that came, taken or refused

    ghost predicate Valid()
      reads this, data
    {
      && data.Length == SIZE && tail < SIZE && count <= SIZE && head == Around(tail + count)
      && |contents| == count && (forall i :: 0 <= i < count ==> contents[i] == data[Around(tail + i)])
      && accepted == delivered + contents && overruns == lost % TWO32 && offered == |accepted| + lost
    }

    constructor ()
      ensures Valid() && fresh(data) && contents == [] == delivered && lost == 0 == offered
    {
      data := new Byte[SIZE](_ => {});
      head, tail, count, overruns := 0, 0, 0, 0;
      contents, accepted, delivered, lost, offered := [], [], [], 0, 0;
    }

    method Reset()
      requires Valid()
      modifies this
      ensures Valid() && contents == [] == delivered && lost == 0 == offered
    {
      head, tail, count, overruns := 0, 0, 0, 0;
      contents, accepted, delivered, lost, offered := [], [], [], 0, 0;
    }

    /** Adds to the overrun count, which wraps at 32 bits. */
    method CountLost(n: nat)
      requires Valid()
      modifies this`overruns, this`lost, this`offered
      ensures Valid() && lost == old(lost) + n && offered == old(offered) + n
    {
      CutAgain(lost, n);
      overruns, lost, offered := (overruns + n) % TWO32, lost + n, offered + n;
    }

    method Enqueue(value: Byte) returns (ok: bool)
      requires Valid()
      modifies this, data
      ensures Valid() && delivered == old(delivered)
      ensures ok == (old(count) < SIZE)
      ensures contents == if ok then old(contents) + [value] else old(contents)
      ensures lost == old(lost) + (if ok then 0 else 1) && offered == old(offered) + 1
    {
      if count >= SIZE {
        CountLost(1);
        return false;
      }
      data[head] := value;
      head := (head + 1) % SIZE;
      count := count + 1;
      contents, accepted, offered := contents + [value], accepted + [value], offered + 1;
      return true;
    }

    method Dequeue() returns (value: Byte)
      requires Valid() && count > 0
      modifies this
      ensures Valid() && lost == old(lost) && accepted == old(accepted) && offered == old(offered)
      ensures old(contents) == [value] + contents && delivered == old(delivered) + [value]
    {
      value := data[tail];
      tail := (tail + 1) % SIZE;
      count := count - 1;
      delivered, contents := delivered + [contents[0]], contents[1..];
    }

    /** Host bytes in: as many as fit are taken in order, the others count as overruns. */
    method Write(buffer: seq<Byte>) returns (written: nat)
      requires Valid()
      modifies this, data
      ensures Valid() && delivered == old(delivered)
      ensures written == if |buffer| <= SIZE - old(count) then |buffer| else SIZE - old(count)
      ensures contents == old(contents) + buffer[..written]
      ensures lost == old(lost) + |buffer| - written && offered == old(offered) + |buffer|
    {
      written := 0;
      ghost var start := contents;
      var refused := false;
      while written < |buffer| && !refused
        invariant Valid() && delivered == old(delivered)
        invariant written <= |buffer| && contents == start + buffer[..written]
        invariant refused ==> written < |buffer| && count == SIZE
        invariant lost == old(lost) + if refused then 1 else 0
        invariant offered == old(offered) + written + if refused then 1 else 0
        decreases |buffer| - written, !refused
      {
        var ok := Enqueue(buffer[written]);
        if ok {
          Taken(start, buffer, written);
          written := written + 1;
        } else {
          refused := true;
        }
      }
      if written < |buffer| {
        CountLost(|buffer| - written - 1);
      }
    }

    /** Host bytes out, oldest first. */
    method Read(buffer: array<Byte>, most: nat) returns (read: nat)
      requires Valid() && buffer != data && most <= buffer.Length
      modifies this, buffer
      ensures Valid() && lost == old(lost) && accepted == old(accepted) && offered == old(offered)
      ensures read == if most <= old(count) then most else old(count)
      ensures buffer[..read] + contents == old(contents) && buffer[read..] == old(buffer[read..])
      ensures delivered == old(delivered) + buffer[..read]
    {
      read := 0;
      ghost var was, queued, start := buffer[..], contents, delivered;
      while read < most && count > 0
        invariant Valid() && lost == old(lost) && accepted == old(accepted) && offered == old(offered)
        invariant read <= most && read + count == old(count)
        invariant buffer[..read] + contents == queued && buffer[read..] == was[read..]
        invariant delivered == start + buffer[..read]
      {
        ghost var front, rest, queue := buffer[..read], buffer[read..], contents;
        var value := Dequeue();
        buffer[read] := value;
        read := read + 1;
        assert buffer[..read] == front + [value] && buffer[read..] == rest[1..];
        Handed(front, queue, value, contents, start);
      }
    }

    /** saveUartQueue: the queue in a straight line from the front of the image. */
    method Save(image: array<Byte>) returns (savedHead: nat, savedTail: nat, savedCount: nat)
      requires Valid() && image != data && image.Length == SIZE
      modifies image
      ensures savedTail == 0 && savedHead == savedCount == |contents|
      ensures image[..savedCount] == contents && image[savedCount..] == old(image[savedCount..])
      ensures Stored(image[..], savedTail, savedCount) == contents
    {
      savedCount := Clamped(count);
      var i := 0;
      while i < savedCount
        invariant i <= savedCount == count && Valid()
        invariant image[..i] == contents[..i] && image[i..] == old(image[i..])
      {
        image[i] := data[(tail + i) % SIZE];
        i := i + 1;
        assert image[..i] == image[..i - 1] + [image[i - 1]];
      }
      savedTail, savedHead := 0, savedCount;
      StoredFromFront(image[..], savedCount);
      assert image[..][..savedCount] == image[..savedCount];
    }

    /** loadUartQueue with the head and tail rebuilt; a null or empty image empties the ring. */
    method Load(image: seq<Byte>, sourceTail: nat, sourceCount: nat, overrun: nat)
      requires Valid() && overrun < TWO32
      modifies this, data
      ensures Valid() && contents == Stored(image, sourceTail, sourceCount)
      ensures lost == overrun && delivered == [] && offered == |contents| + overrun
    {
      ghost var q := Stored(image, sourceTail, sourceCount);
      tail, count := 0, 0;
      if image != [] {
        count := Clamped(sourceCount);
      }
      CopyIn(image, sourceTail, count, q);
      Restart(q, overrun);
    }

    method Restart(ghost q: seq<Byte>, overrun: nat)
      requires data.Length == SIZE && tail == 0 && |q| == count <= SIZE && overrun < TWO32
      requires forall j :: 0 <= j < count ==> data[j] == q[j]
      modifies this`head, this`contents, this`accepted, this`delivered, this`overruns, this`lost, this`offered
      ensures Valid() && contents == q && overruns == lost == overrun && delivered == []
      ensures offered == |contents| + overrun
    {
      head := count % SIZE;
      contents, delivered, overruns, lost := q, [], overrun, overrun;
      accepted, offered := contents, |contents| + overrun;
    }

    method CopyIn(image: seq<Byte>, sourceTail: nat, copyCount: nat, ghost q: seq<Byte>)
      requires data.Length == SIZE && copyCount <= SIZE && |q| == copyCount && (image == [] ==> copyCount == 0)
      requires forall i :: 0 <= i < copyCount ==> q[i] == image[Fold((sourceTail + i) % TWO32, |image|)]
      modifies data
      ensures forall j :: 0 <= j < copyCount ==> data[j] == q[j]
    {
      forall k | 0 <= k < SIZE {
        data[k] := {};
      }
      var i := 0;
      while i < copyCount
        invariant i <= copyCount
        invariant forall j :: 0 <= j < i ==> data[j] == q[j]
      {
        data[i] := image[Fold((sourceTail + i) % TWO32, |image|)];
        assert data[i] == q[i];
        i := i + 1;
      }
    }
  }
}
