/** The fixed-size buffer of include/FixedBuffer.h. */
module FixedBuffers {

  const SMALL_BUFFER_SIZE: nat := 4000
  const LARGE_BUFFER_SIZE: nat := 4000 * 1000

  /** What append leaves in a buffer: the text if strictly less than the free space, else nothing new. */
  function Appended(capacity: nat, contents: string, text: string): (r: string)
    requires |contents| <= capacity
    ensures |r| <= capacity
  {
    if capacity - |contents| > |text| then contents + text else contents
  }

  class FixedBuffer {
    const capacity: nat
    const data: array<char>
    var cur: nat   // cur_, as an offset
    var size: nat  // size_

    ghost predicate Valid()
      reads this
    {
      data.Length == capacity && cur == size <= capacity
    }

    ghost function Contents(): (s: string)
      requires Valid()
      reads this, data
    {
      data[..size]
    }

    constructor (capacity: nat)
      ensures Valid() && this.capacity == capacity && Contents() == [] && fresh(data)
    {
      this.capacity := capacity;
      data := new char[capacity](_ => '\0');
      cur, size := 0, 0;
    }

    function Avail(): (n: nat)
      requires Valid()
      reads this, data
      ensures n + |Contents()| == capacity
    {
      capacity - size
    }

    method Append(text: string)
      requires Valid()
      modifies this, data
      ensures Valid() && Contents() == Appended(capacity, old(Contents()), text)
    {
      if Avail() > |text| {
        forall i | 0 <= i < |text| { data[cur + i] := text[i]; }
        Add(|text|);
        assert Contents() == old(Contents()) + text;
      }
    }

    /** add(): takes `len` bytes already stored at cur_ into the contents. */
    method Add(len: nat)
      requires Valid() && size + len <= capacity
      modifies this
      ensures Valid() && size == old(size) + len
      ensures Contents() == old(Contents()) + old(data[size..size + len])
    {
      cur, size := cur + len, size + len;
    }

    method Reset()
      requires Valid()
      modifies this
      ensures Valid() && Contents() == []
    {
      cur, size := 0, 0;
    }
  }
}
