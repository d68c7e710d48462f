/** CharStream: a fixed-capacity append buffer over a caller's byte array,
    used to assemble one CSV log line before it is written out. It is an
    Arduino `Print`; of `Print` the model keeps only the write-error flag,
    which a write that hits capacity sets and nothing here clears. */
module CharStreams {
  import opened Machine

  class CharStream {
    var buffer: array<byte>
    var size: nat
    var pos: nat
    var writeError: bool

    ghost predicate Valid()
      reads this
    {
      size <= buffer.Length && pos <= size
    }

    /** The bytes accepted since the last reset. */
    ghost function Written(): seq<byte>
      reads this, buffer
      requires Valid()
    {
      buffer[..pos]
    }

    /** CharStream(buffer, size): `n` is the capacity, at most the length of
        the caller's array. */
    constructor (buf: array<byte>, n: u8)
      requires n <= buf.Length
      ensures buffer == buf && size == n && pos == 0 && !writeError
      ensures Valid() && Written() == []
    {
      buffer := buf;
      size := n;
      pos := 0;
      writeError := false;
    }

    /** write(buffer, size): copies bytes until the capacity is reached; a
        byte that does not fit sets the write error and ends the copy. */
    method WriteBytes(src: seq<byte>) returns (n: nat)
      requires Valid()
      modifies this`pos, this`writeError, buffer
      ensures Valid()
      ensures n == if |src| <= size - old(pos) then |src| else size - old(pos)
      ensures pos == old(pos) + n
      ensures Written() == old(Written()) + src[..n]
      ensures forall k :: pos <= k < buffer.Length ==> buffer[k] == old(buffer[k])
      ensures writeError == (old(writeError) || |src| > size - old(pos))
    {
      var i := 0;
      while i < |src|
        invariant i <= |src| && pos == old(pos) + i && pos <= size
        invariant buffer[..pos] == old(buffer[..pos]) + src[..i]
        invariant forall k :: pos <= k < buffer.Length ==> buffer[k] == old(buffer[k])
        invariant writeError == old(writeError)
      {
        if pos == size {
          writeError := true;
          return i;
        }
        buffer[pos] := src[i];
        i, pos := i + 1, pos + 1;
      }
      return |src|;
    }

    /** write(ch): one byte, or 0 and the write error when full. */
    method WriteByte(ch: byte) returns (n: nat)
      requires Valid()
      modifies this`pos, this`writeError, buffer
      ensures Valid()
      ensures n == (if old(pos) < size then 1 else 0)
      ensures pos == old(pos) + n
      ensures Written() == old(Written()) + [ch][..n]
      ensures forall k :: pos <= k < buffer.Length ==> buffer[k] == old(buffer[k])
      ensures writeError == (old(writeError) || old(pos) == size)
    {
      if pos == size {
        writeError := true;
        return 0;
      }
      buffer[pos] := ch;
      pos := pos + 1;
      return 1;
    }

    /** reset(): forget the line; the bytes stay and so does the error flag. */
    method Reset()
      requires Valid()
      modifies this`pos
      ensures Valid() && pos == 0 && Written() == []
    {
      pos := 0;
    }

    /** dump(dest): the bytes handed to the destination. */
    method Dump() returns (out: seq<byte>)
      requires Valid()
      ensures out == Written()
    {
      out := buffer[..pos];
    }

    /** bytes_written(). */
    function BytesWritten(): (n: nat)
      reads this, buffer
      requires Valid()
      ensures n == |Written()|
    {
      pos
    }

    /** Reset, then a series of writes, then dump: when the writes total at
        most the capacity the destination receives their concatenation and
        no write error is raised; otherwise it receives the first `size`
        bytes of it and the error is raised. */
    method WriteLine(chunks: seq<seq<byte>>) returns (out: seq<byte>)
      requires Valid()
      modifies this`pos, this`writeError, buffer
      ensures Valid()
      ensures |Concat(chunks)| <= size ==> out == Concat(chunks) && writeError == old(writeError)
      ensures |Concat(chunks)| > size ==> out == Concat(chunks)[..size] && writeError
    {
      Reset();
      var j := 0;
      while j < |chunks|
        invariant j <= |chunks| && Valid()
        invariant |Concat(chunks[..j])| <= size ==>
                    Written() == Concat(chunks[..j]) && writeError == old(writeError)
        invariant |Concat(chunks[..j])| > size ==>
                    Written() == Concat(chunks[..j])[..size] && writeError
      {
        ConcatSnoc(chunks[..j], chunks[j]);
        assert chunks[..j + 1] == chunks[..j] + [chunks[j]];
        var n := WriteBytes(chunks[j]);
        j := j + 1;
      }
      assert chunks[..j] == chunks;
      out := Dump();
    }
  }

  function Concat(chunks: seq<seq<byte>>): (s: seq<byte>)
  {
    if chunks == [] then [] else Concat(chunks[..|chunks| - 1]) + chunks[|chunks| - 1]
  }

  lemma ConcatSnoc(chunks: seq<seq<byte>>, c: seq<byte>)
    ensures Concat(chunks + [c]) == Concat(chunks) + c
  {
    assert (chunks + [c])[..|chunks|] == chunks;
  }
}
