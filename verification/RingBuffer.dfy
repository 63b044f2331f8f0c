/** klib::RingBuffer: two indices that only grow, and copies in at most two passes. It is a bounded queue. */
module RingBuffer {
  import opened Common

  /** What is in a buffer whose indices are `read` and `write`. */
  function Window<T>(data: seq<T>, read: nat, write: nat): seq<T>
    requires |data| > 0 && read <= write
  {
    seq(write - read, i requires 0 <= i => data[(read + i) % |data|])
  }

  lemma MulMono(a: nat, b: nat, n: nat)
    requires a <= b
    ensures a * n <= b * n
  {
  }

  lemma DivUnique(a: nat, k: nat, r: nat, n: nat)
    requires r < n && a == k * n + r
    ensures a % n == r
  {
    var k' := a / n;
    assert a == k' * n + a % n;
    if k' > k {
      MulMono(k + 1, k', n);
    } else if k' < k {
      MulMono(k' + 1, k, n);
    }
  }

  /** Where the i-th element behind an index is stored, on the first and on the second pass. */
  lemma Wrapped(index: nat, i: nat, n: nat)
    requires 0 < n && i <= n
    ensures var offset := index % n;
            && (offset + i < n ==> (index + i) % n == offset + i)
            && (offset + i >= n && i < n ==> (index + i) % n == offset + i - n)
  {
    var k, offset := index / n, index % n;
    assert index == k * n + offset;
    if offset + i < n {
      DivUnique(index + i, k, offset + i, n);
    } else if i < n {
      assert (k + 1) * n == k * n + n;
      DivUnique(index + i, k + 1, offset + i - n, n);
    }
  }

  /** Distinct positions less than a whole turn apart are stored apart. */
  lemma Apart(index: nat, i: nat, j: nat, n: nat)
    requires i < j < n
    ensures (index + i) % n != (index + j) % n
  {
    Wrapped(index, i, n);
    Wrapped(index, j, n);
  }

  /** Two slices of the array give the first `count` elements of the queue. */
  lemma TwoPasses<T>(data: seq<T>, read: nat, write: nat, count: nat)
    requires 0 < |data| && read <= write <= read + |data| && count <= write - read
    ensures var offset := read % |data|;
            var first := Min(count, |data| - offset);
            data[offset..offset + first] + data[..count - first] == Window(data, read, write)[..count]
  {
    var n, offset := |data|, read % |data|;
    var first := Min(count, n - offset);
    var s := data[offset..offset + first] + data[..count - first];
    forall i | 0 <= i < count
      ensures s[i] == Window(data, read, write)[i]
    {
      PassElement(data, read, count, i);
    }
  }

  lemma PassElement<T>(data: seq<T>, read: nat, count: nat, i: nat)
    requires 0 < |data| && i < count <= |data|
    ensures var offset := read % |data|;
            var first := Min(count, |data| - offset);
            (data[offset..offset + first] + data[..count - first])[i] == data[(read + i) % |data|]
  {
    Wrapped(read, i, |data|);
  }

  class RingBuffer<T(0)> {
    const size: nat
    const data: array<T>
    var readIndex: nat
    var writeIndex: nat

    ghost predicate Valid()
      reads this
    {
      0 < size == data.Length && readIndex <= writeIndex <= readIndex + size
    }

    ghost function Contents(): (s: seq<T>)
      requires Valid()
      reads this, data
    {
      Window(data[..], readIndex, writeIndex)
    }

    constructor (size: nat)
      requires size > 0
      ensures Valid() && Contents() == [] && this.size == size && fresh(data)
    {
      this.size := size;
      data := new T[size];
      readIndex, writeIndex := 0, 0;
    }

    function DataCount(): nat
      requires Valid()
      reads this
    {
      writeIndex - readIndex
    }

    function FreeCount(): nat
      requires Valid()
      reads this
    {
      size - DataCount()
    }

    predicate IsEmpty()
      requires Valid()
      reads this
    {
      DataCount() == 0
    }

    predicate IsFull()
      requires Valid()
      reads this
    {
      DataCount() == size
    }

    method Read(wanted: nat) returns (buffer: seq<T>)
      requires Valid()
      modifies this
      ensures Valid() && var n := Min(wanted, |old(Contents())|);
              buffer == old(Contents())[..n] && Contents() == old(Contents())[n..]
    {
      var count := Min(wanted, DataCount());
      if count == 0 {
        return [];
      }
      var offset := readIndex % size;
      var first := Min(count, size - offset);
      TwoPasses(data[..], readIndex, writeIndex, count);
      buffer := data[offset..offset + first];
      if first < count {
        buffer := buffer + data[..count - first];
      }
      readIndex := readIndex + count;
    }

    method Write(buffer: seq<T>) returns (count: nat)
      requires Valid()
      modifies this, data
      ensures Valid() && readIndex == old(readIndex)
      ensures count == Min(|buffer|, size - |old(Contents())|)
      ensures Contents() == old(Contents()) + buffer[..count]
    {
      count := Min(|buffer|, FreeCount());
      var offset := writeIndex % size;
      var first := Min(count, size - offset);
      forall i | 0 <= i < first {
        data[offset + i] := buffer[i];
      }
      if first < count {
        forall i | 0 <= i < count - first {
          data[i] := buffer[first + i];
        }
      }
      WritePasses(old(data[..]), data[..], readIndex, writeIndex, buffer[..count], first);
      writeIndex := writeIndex + count;
    }

    method Truncate(wanted: nat) returns (count: nat)
      requires Valid()
      modifies this`readIndex
      ensures Valid() && count == Min(wanted, |old(Contents())|) && Contents() == old(Contents())[count..]
    {
      count := Min(wanted, DataCount());
      readIndex := readIndex + count;
    }

    /** All of a buffer that is not larger than the ring gets stored, at the cost of the oldest elements. */
    method WriteTruncate(buffer: seq<T>) returns (count: nat)
      requires Valid()
      modifies this, data
      ensures Valid() && count == Min(|buffer|, size)
      ensures var dropped := if size - |old(Contents())| < |buffer| then Min(|buffer|, |old(Contents())|) else 0;
              Contents() == old(Contents())[dropped..] + buffer[..count]
    {
      if FreeCount() < |buffer| {
        var dropped := Truncate(|buffer|);
      }
      count := Write(buffer);
    }

    method Peek() returns (first: Option<T>)
      requires Valid()
      ensures first == if Contents() == [] then None else Some(Contents()[0])
    {
      if IsEmpty() {
        return None;
      }
      return Some(data[readIndex % size]);
    }
  }

  /** The array after two copying passes, the first of `first` elements from `offset` on and the second from the start. */
  ghost predicate Copied<T>(data: seq<T>, data': seq<T>, offset: nat, buffer: seq<T>, first: nat) {
    && |data'| == |data| && first <= |buffer|
    && (forall j: nat :: j < |data| ==> data'[j] == AfterCopy(data, offset, buffer, first, j))
  }

  function AfterCopy<T>(data: seq<T>, offset: nat, buffer: seq<T>, first: nat, j: nat): T
    requires j < |data| && first <= |buffer|
  {
    if j < |buffer| - first then buffer[first + j]
    else if offset <= j < offset + first then buffer[j - offset]
    else data[j]
  }

  /** Elements that were in the queue are not touched. */
  lemma OldElement<T>(data: seq<T>, data': seq<T>, read: nat, write: nat, buffer: seq<T>, first: nat, i: nat)
    requires 0 < |data| && read <= write && write - read + |buffer| <= |data| && i < write - read
    requires first == Min(|buffer|, |data| - write % |data|) && Copied(data, data', write % |data|, buffer, first)
    ensures data'[(read + i) % |data|] == data[(read + i) % |data|]
  {
    var n, offset, queued, j := |data|, write % |data|, write - read, (read + i) % |data|;
    if j < |buffer| - first {
      Wrapped(write, first + j, n);
      Apart(read, i, queued + (first + j), n);
    } else if offset <= j < offset + first {
      Wrapped(write, j - offset, n);
      Apart(read, i, queued + (j - offset), n);
    }
  }

  /** Copying `buffer` in two passes behind the queue appends it. */
  lemma WritePasses<T>(data: seq<T>, data': seq<T>, read: nat, write: nat, buffer: seq<T>, first: nat)
    requires 0 < |data| && read <= write && write - read + |buffer| <= |data|
    requires first == Min(|buffer|, |data| - write % |data|) && Copied(data, data', write % |data|, buffer, first)
    ensures Window(data', read, write + |buffer|) == Window(data, read, write) + buffer
  {
    var queued := write - read;
    forall i: nat | i < queued + |buffer|
      ensures Window(data', read, write + |buffer|)[i] == (Window(data, read, write) + buffer)[i]
    {
      if i < queued {
        OldElement(data, data', read, write, buffer, first, i);
      } else {
        assert read + i == write + (i - queued);
        Wrapped(write, i - queued, |data|);
      }
    }
  }
}
