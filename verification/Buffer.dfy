/** The network buffer of include/Buffer.h and src/Buffer.cc: one vector with a read and a write
    index, seen from outside as a queue of bytes. */
module Buffers {
  import opened Wrappers

  type Byte = b: int | 0 <= b < 256

  const CHEAP_PREPEND: nat := 8
  const INITIAL_SIZE: nat := 1024
  const EXTRA_SIZE: nat := 65536

  /** What readv did: fail, or fill the vectors it was given with these bytes. */
  datatype ReadResult = ReadFailed(errno: int) | ReadBytes(bytes: seq<Byte>)

  function Zeros(n: nat): (s: seq<Byte>)
    ensures |s| == n
  {
    seq(n, _ => 0)
  }

  lemma OneByteDown(s: seq<Byte>, r: seq<Byte>, from: nat, to: nat, i: nat)
    requires to <= from && from + i < |s| && r == s[..to] + s[from..from + i] + s[to + i..]
    ensures r[to + i := r[from + i]] == s[..to] + s[from..from + i + 1] + s[to + i + 1..]
  {
    assert r[from + i] == s[from + i];
    assert s[from..from + i + 1] == s[from..from + i] + [s[from + i]];
  }

  /** std::copy of `n` bytes to a lower place in the same vector; the two stretches may overlap, and
      copying upwards reads every byte before it is overwritten. */
  method CopyDown(s: seq<Byte>, from: nat, to: nat, n: nat) returns (r: seq<Byte>)
    requires to <= from && from + n <= |s|
    ensures r == s[..to] + s[from..from + n] + s[to + n..]
  {
    r := s;
    var i := 0;
    while i < n
      invariant i <= n && r == s[..to] + s[from..from + i] + s[to + i..]
    {
      OneByteDown(s, r, from, to, i);
      r := r[to + i := r[from + i]];
      i := i + 1;
    }
  }

  class Buffer {
    var buffer: seq<Byte>
    var readerIndex: nat
    var writerIndex: nat

    ghost predicate Valid()
      reads this
    {
      CHEAP_PREPEND <= readerIndex <= writerIndex <= |buffer|
    }

    /** The bytes put in and not yet taken out. */
    ghost function Readable(): (s: seq<Byte>)
      requires Valid()
      reads this
    {
      buffer[readerIndex..writerIndex]
    }

    constructor (initialSize: nat)
      ensures Valid() && Readable() == []
    {
      buffer := Zeros(CHEAP_PREPEND + initialSize);
      readerIndex, writerIndex := CHEAP_PREPEND, CHEAP_PREPEND;
    }

    function ReadableBytes(): (n: nat)
      requires Valid()
      reads this
      ensures n == |Readable()|
    {
      writerIndex - readerIndex
    }

    function WritableBytes(): nat
      requires Valid()
      reads this
    {
      |buffer| - writerIndex
    }

    /** retrieve: asking for more than there is takes everything. */
    method Retrieve(len: nat)
      requires Valid()
      modifies this
      ensures Valid()
      ensures Readable() == if len < |old(Readable())| then old(Readable())[len..] else []
    {
      if len < ReadableBytes() {
        readerIndex := readerIndex + len;
      } else {
        readerIndex, writerIndex := CHEAP_PREPEND, CHEAP_PREPEND;
      }
    }

    /** retrieveAsString: a length beyond the readable bytes, which has to stay inside the vector, takes
        all of them and whatever lies behind. */
    method RetrieveAsString(len: nat) returns (s: seq<Byte>)
      requires Valid() && len <= ReadableBytes() + WritableBytes()
      modifies this
      ensures Valid() && |s| == len
      ensures if len <= |old(Readable())| then s + Readable() == old(Readable())
              else old(Readable()) < s && Readable() == []
    {
      s := buffer[readerIndex..readerIndex + len];
      Retrieve(len);
    }

    /** The move in makeSpace. */
    method MoveToFront()
      requires Valid()
      modifies this
      ensures Valid() && readerIndex == CHEAP_PREPEND && |buffer| == |old(buffer)| && Readable() == old(Readable())
    {
      var readable := ReadableBytes();
      buffer := CopyDown(buffer, readerIndex, CHEAP_PREPEND, readable);
      readerIndex, writerIndex := CHEAP_PREPEND, CHEAP_PREPEND + readable;
    }

    /** makeSpace: grow if the free space at both ends is not enough, else move the bytes down. */
    method MakeSpace(len: nat)
      requires Valid()
      modifies this
      ensures Valid() && Readable() == old(Readable()) && WritableBytes() >= len
    {
      if WritableBytes() + readerIndex < len + CHEAP_PREPEND {
        buffer := buffer + Zeros(writerIndex + len - |buffer|);  // resize; the new size is larger
      } else {
        MoveToFront();
      }
    }

    method EnsureWritableBytes(len: nat)
      requires Valid()
      modifies this
      ensures Valid() && Readable() == old(Readable()) && WritableBytes() >= len
    {
      if WritableBytes() < len { MakeSpace(len); }
    }

    /** The bytes that a copy or readv leaves at the write index. */
    method Fill(data: seq<Byte>)
      requires Valid() && |data| <= WritableBytes()
      modifies this
      ensures Valid() && Readable() == old(Readable()) + data
      ensures |buffer| == |old(buffer)| && writerIndex == old(writerIndex) + |data|
    {
      buffer := buffer[..writerIndex] + data + buffer[writerIndex + |data|..];
      writerIndex := writerIndex + |data|;
    }

    method Append(data: seq<Byte>)
      requires Valid()
      modifies this
      ensures Valid() && Readable() == old(Readable()) + data
    {
      EnsureWritableBytes(|data|);
      Fill(data);
    }

    /** How much readv is offered: the writable space and, if that is short, the stack buffer too. */
    function Offered(): nat
      requires Valid()
      reads this
    {
      WritableBytes() + if WritableBytes() < EXTRA_SIZE then EXTRA_SIZE else 0
    }

    /** readFd: what arrives is queued whole, whether or not it spilled into the stack buffer. */
    method ReadFd(result: ReadResult) returns (n: int, savedErrno: Option<int>)
      requires Valid() && (result.ReadBytes? ==> |result.bytes| <= Offered())
      modifies this
      ensures Valid()
      ensures n == if result.ReadFailed? then -1 else |result.bytes|
      ensures savedErrno == if result.ReadFailed? then Some(result.errno) else None
      ensures Readable() == old(Readable()) + if result.ReadFailed? then [] else result.bytes
    {
      match result {
        case ReadFailed(errno) => n, savedErrno := -1, Some(errno);
        case ReadBytes(bytes) =>
          n, savedErrno := |bytes|, None;
          var writable := WritableBytes();
          if n <= writable {
            Fill(bytes);
          } else {
            var extra := bytes[writable..];
            Fill(bytes[..writable]);
            Append(extra);
            assert bytes == bytes[..writable] + extra;
          }
      }
    }
  }

  // ----- whole runs -----

  /** `Receive` stands for the calls of readFd by which bytes arrive, as many at a time as it offers. */
  datatype Op = Put(data: seq<Byte>) | Receive(bytes: seq<Byte>) | Take(len: nat)

  function Given(op: Op): seq<Byte> {
    match op
    case Put(data) => data
    case Receive(bytes) => bytes
    case Take(_) => []
  }

  /** Everything that was put in. */
  function Supplied(ops: seq<Op>): seq<Byte> {
    if ops == [] then [] else Supplied(ops[..|ops| - 1]) + Given(ops[|ops| - 1])
  }

  function Min(a: nat, b: nat): nat { if a < b then a else b }

  /** How many bytes the takes find; one that asks for more than there is gets what there is. */
  function Drawn(ops: seq<Op>): (n: nat)
    ensures n <= |Supplied(ops)|
  {
    if ops == [] then 0
    else
      var front, last := ops[..|ops| - 1], ops[|ops| - 1];
      Drawn(front) + if last.Take? then Min(last.len, |Supplied(front)| - Drawn(front)) else 0
  }

  method ReceiveAll(b: Buffer, bytes: seq<Byte>)
    requires b.Valid()
    modifies b
    ensures b.Valid() && b.Readable() == old(b.Readable()) + bytes
  {
    var done := 0;
    while done < |bytes|
      invariant done <= |bytes| && b.Valid() && b.Readable() == old(b.Readable()) + bytes[..done]
    {
      var n := Min(|bytes| - done, b.Offered());
      var _, _ := b.ReadFd(ReadBytes(bytes[done..done + n]));
      assert bytes[..done + n] == bytes[..done] + bytes[done..done + n];
      done := done + n;
    }
    assert bytes[..done] == bytes;
  }

  method Perform(b: Buffer, op: Op) returns (s: seq<Byte>)
    requires b.Valid()
    modifies b
    ensures b.Valid() && s + b.Readable() == old(b.Readable()) + Given(op)
    ensures |s| == if op.Take? then Min(op.len, |old(b.Readable())|) else 0
  {
    s := [];
    match op {
      case Put(data) => b.Append(data);
      case Receive(bytes) => ReceiveAll(b, bytes);
      case Take(len) => s := b.RetrieveAsString(Min(len, b.ReadableBytes()));
    }
  }

  lemma OneMore(ops: seq<Op>, i: nat)
    requires i < |ops|
    ensures Supplied(ops[..i + 1]) == Supplied(ops[..i]) + Given(ops[i])
    ensures Drawn(ops[..i + 1]) ==
            Drawn(ops[..i]) + if ops[i].Take? then Min(ops[i].len, |Supplied(ops[..i])| - Drawn(ops[..i])) else 0
  {
    assert ops[..i + 1][..i] == ops[..i];
  }

  lemma Conserved(taken: seq<Byte>, before: seq<Byte>, s: seq<Byte>, after: seq<Byte>, given: seq<Byte>)
    requires s + after == before + given
    ensures taken + s + after == taken + before + given
  {
    assert taken + s + after == taken + (s + after);
    assert taken + (before + given) == taken + before + given;
  }

  /** A byte queue: what was taken out, followed by what is there, is what was put in. */
  method Play(initialSize: nat, ops: seq<Op>) returns (b: Buffer, taken: seq<Byte>)
    ensures b.Valid() && taken + b.Readable() == Supplied(ops) && |taken| == Drawn(ops)
  {
    b := new Buffer(initialSize);
    taken := [];
    var i := 0;
    while i < |ops|
      invariant i <= |ops| && fresh(b) && b.Valid()
      invariant taken + b.Readable() == Supplied(ops[..i]) && |taken| == Drawn(ops[..i])
    {
      ghost var readable := b.Readable();
      var s := Perform(b, ops[i]);
      OneMore(ops, i);
      Conserved(taken, readable, s, b.Readable(), Given(ops[i]));
      taken := taken + s;
      i := i + 1;
    }
    assert ops[..i] == ops;
  }
}
