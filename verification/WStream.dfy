/** The byte stream every message is built in and read from: a buffer, a
    position, and a length that says how much of the buffer is meaningful. */
module Streams {
  import opened Wire

  class WStream {
    var buffer: array<byte>
    var position: nat
    var length: nat
    var live: bool

    ghost predicate Valid()
      reads this
    {
      live && position <= buffer.Length && length <= buffer.Length
    }

    /** Everything before the position. */
    function Written(): seq<byte>
      reads this, buffer
      requires Valid()
    {
      buffer[..position]
    }

    /** What a reader may still consume. */
    function Remaining(): seq<byte>
      reads this, buffer
      requires Valid()
    {
      if position <= length then buffer[position..length] else []
    }

    constructor (size: nat)
      ensures Valid() && fresh(buffer)
      ensures position == 0 && length == size && buffer.Length == size
    {
      buffer := new byte[size];
      position, length, live := 0, size, true;
    }

    method Write(data: seq<byte>)
      requires Valid() && position + |data| <= buffer.Length
      modifies this`position, buffer
      ensures Valid() && position == old(position) + |data|
      ensures Written() == old(Written()) + data
      ensures buffer[position..] == old(buffer[position + |data|..])
    {
      var i := 0;
      while i < |data|
        modifies buffer
        invariant 0 <= i <= |data|
        invariant buffer[..position] == old(buffer[..position])
        invariant forall k :: 0 <= k < i ==> buffer[position + k] == data[k]
        invariant buffer[position + |data|..] == old(buffer[position + |data|..])
      {
        buffer[position + i] := data[i];
        i := i + 1;
      }
      position := position + |data|;
    }

    method SealLength()
      requires Valid()
      modifies this`length
      ensures Valid() && length == position
    {
      length := position;
    }

    method SetPosition(p: nat)
      requires Valid() && p <= buffer.Length
      modifies this`position
      ensures Valid() && position == p
    {
      position := p;
    }

    method Seek(n: nat)
      requires Valid() && position + n <= buffer.Length
      modifies this`position
      ensures Valid() && position == old(position) + n
    {
      position := position + n;
    }

    method ReadU32() returns (n: u32)
      requires Valid() && position + 4 <= length
      modifies this`position
      ensures Valid() && position == old(position) + 4
      ensures n == ReadLE32(old(Remaining()))
      ensures Remaining() == old(Remaining())[4..]
    {
      n := ReadLE32(buffer[position..length]);
      position := position + 4;
    }

    /** Makes room for n more bytes. The capacity stays when they fit; otherwise
        grown is the capacity the allocator offers, refused when too small, and
        the new part is zeroed. */
    method EnsureRemainingCapacity(n: nat, grown: nat) returns (ok: bool)
      requires Valid()
      modifies this`buffer, this`length
      ensures Valid() && position == old(position)
      ensures ok <==> old(position + n <= buffer.Length) || position + n <= grown
      ensures ok ==> position + n <= buffer.Length
      ensures !ok || old(position + n <= buffer.Length) ==> buffer == old(buffer) && length == old(length)
      ensures ok && old(position + n > buffer.Length) ==>
                fresh(buffer) && buffer.Length == length == grown
                && buffer[..] == old(buffer[..]) + seq(grown - old(buffer.Length), _ => 0)
    {
      ok := position + n <= buffer.Length;
      if !ok && position + n <= grown {
        var larger := new byte[grown](_ => 0);
        forall k | 0 <= k < buffer.Length {
          larger[k] := buffer[k];
        }
        assert larger[..] == buffer[..] + seq(grown - buffer.Length, _ => 0);
        buffer, length, ok := larger, grown, true;
      }
    }

    method Free()
      requires Valid()
      modifies this`live
      ensures !live
    {
      live := false;
    }
  }
}
