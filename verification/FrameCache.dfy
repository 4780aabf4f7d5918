/** The byte FIFO under the lockstep (common/k_framecache.h), kept in a growing buffer. */
module FrameCache {
  import opened Bytes

  class FrameFifo {
    var buffer: array?<byte>
    var pos: nat

    ghost predicate Valid()
      reads this
    {
      if buffer == null then pos == 0 else pos <= buffer.Length
    }

    /** The queued bytes, oldest first. */
    ghost function Contents(): seq<byte>
      requires Valid()
      reads this, buffer
    {
      if buffer == null then [] else buffer[..pos]
    }

    constructor ()
      ensures Valid() && Contents() == [] && buffer == null
    {
      buffer, pos := null, 0;
    }

    /** Makes the buffer hold at least n bytes; six times as many the first time, twice as many later. */
    method EnsureSized(n: nat)
      requires Valid()
      modifies this`buffer
      ensures Valid() && buffer != null && buffer.Length >= n && pos == old(pos)
      ensures Contents() == old(Contents())
      ensures buffer == old(buffer) || fresh(buffer)
    {
      if buffer == null {
        buffer := new byte[n * 6](_ => 0);
      } else if n > buffer.Length {
        var grown := new byte[n * 2](_ => 0);
        for i := 0 to pos
          invariant pos == old(pos) && buffer == old(buffer) && buffer != null && pos <= buffer.Length <= grown.Length
          invariant grown[..i] == buffer[..i]
        {
          grown[i] := buffer[i];
        }
        buffer := grown;
      }
    }

    /** Writes the data behind the first `at` bytes. */
    method Write(at: nat, data: seq<byte>)
      requires buffer != null && at + |data| <= buffer.Length
      modifies buffer
      ensures buffer[..at + |data|] == old(buffer[..at]) + data
    {
      for i := 0 to |data|
        invariant buffer[..at + i] == old(buffer[..at]) + data[..i]
      {
        buffer[at + i] := data[i];
      }
    }

    method PutData(data: seq<byte>)
      requires Valid()
      modifies this, buffer
      ensures Valid() && Contents() == old(Contents()) + data
      ensures buffer == old(buffer) || fresh(buffer)
    {
      if |data| > 0 {
        EnsureSized(pos + |data|);
        Write(pos, data);
        pos := pos + |data|;
      }
    }

    /** Moves `rest` bytes from x down to the front. */
    method MoveDown(x: nat, rest: nat)
      requires buffer != null && x + rest <= buffer.Length
      modifies buffer
      ensures buffer[..rest] == old(buffer[x..x + rest])
    {
      for i := 0 to rest
        invariant forall k :: 0 <= k < i ==> buffer[k] == old(buffer[x + k])
        invariant forall k :: x + i <= k < x + rest ==> buffer[k] == old(buffer[k])
      {
        buffer[i] := buffer[x + i];
      }
    }

    /** Takes at most n bytes off the front and moves the rest down. */
    method GetData(n: nat) returns (out: seq<byte>)
      requires Valid()
      modifies this`pos, buffer
      ensures Valid() && buffer == old(buffer)
      ensures |out| == Min(n, |old(Contents())|) && out + Contents() == old(Contents())
    {
      var x := Min(n, pos);
      if x <= 0 {
        return [];
      }
      out := buffer[..x];
      MoveDown(x, pos - x);
      pos := pos - x;
    }

    method Reset()
      requires Valid()
      modifies this`pos
      ensures Valid() && Contents() == []
    {
      pos := 0;
    }
  }
}
