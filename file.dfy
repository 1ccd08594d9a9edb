/** The caller-facing cursor (File): a wrapper around one byte source with line and byte
    oriented reads. The source here is a MemFile. */
module Files {
  import opened Wrappers
  import opened MemFiles
  import opened Lines

  /** `n` zero bytes: the string read_all allocates before reading into it. */
  function Zeros(n: nat): (r: seq<Byte>)
    ensures |r| == n && forall i :: 0 <= i < n ==> r[i] == 0
  {
    seq(n, _ => 0)
  }

  class File {
    /** The source this file owns for its whole life. */
    const handler: MemFile

    constructor (handler: MemFile)
      ensures this.handler == handler
    {
      this.handler := handler;
    }

    /** The input position indicator. */
    function Tell(): (r: int)
      reads handler
      ensures r == handler.pos
    {
      handler.Tell()
    }

    /** The size of the file. */
    function Size(): (r: nat)
      ensures r == |handler.data|
    {
      handler.Size()
    }

    /** The position indicator has reached the end: it is at the size, not past it. */
    predicate Eof()
      reads handler
      ensures Eof() ==> handler.InRange()
      ensures handler.InRange() && !Eof() ==> Tell() < Size()
    {
      Tell() == Size()
    }

    /** Reads `n` bytes through the source and passes on what the source returns. */
    method Read(n: nat) returns (bytes: seq<Byte>, ret: Option<nat>)
      requires handler.InRange()
      modifies handler
      ensures bytes == Copied(handler.data, old(handler.pos), n)
      ensures handler.pos == old(handler.pos) + |bytes|
      ensures ret == ReadReturn(|bytes|, Size())
    {
      bytes, ret := handler.Read(n);
    }

    /** Reads `Size()` bytes into a zero-filled string of that length in one read. From a
        non-zero position the tail of the string stays zero. None: the read's returned count
        divided by zero (an empty source). */
    method ReadAll() returns (contents: Option<seq<Byte>>)
      requires handler.InRange()
      modifies handler
      ensures Eof()
      ensures contents.None? <==> Size() == 0
      ensures contents.Some? ==> contents.value == handler.data[old(handler.pos)..] + Zeros(old(handler.pos))
      ensures contents.Some? && old(handler.pos) == 0 ==> contents.value == handler.data
    {
      var buffer := Zeros(Size());
      var bytes, ret := handler.Read(|buffer|);
      buffer := bytes + buffer[|bytes|..];
      contents := if ret.None? then None else Some(buffer);
    }

    /** Reads one byte at a time, at most `count` times, until a line feed is consumed,
        storing every byte but CR and LF. None: a read's returned count divided by zero (an
        empty source and a positive count). */
    method ReadLine(count: nat) returns (line: Option<Line>)
      requires handler.InRange()
      modifies handler
      ensures handler.pos == ScanLine(handler.data, old(handler.pos), 0, count, []).pos
      ensures line.None? <==> count > 0 && Size() == 0
      ensures line.Some? ==> line.value == LineOf(handler.data, old(handler.pos), count)
    {
      var c: Byte := 0;
      var stored: seq<Byte> := [];
      var left: nat := count;
      var divided := false;
      while left > 0 && c != NL
        invariant handler.InRange()
        invariant left <= count && (left == count ==> c == 0)
        invariant ScanLine(handler.data, handler.pos, c, left, stored)
               == ScanLine(handler.data, old(handler.pos), 0, count, [])
        invariant divided <==> left < count && Size() == 0
      {
        var bytes, ret := handler.Read(1);
        if |bytes| == 1 {
          c := bytes[0];
        }
        if Kept(c) {
          stored := stored + [c];
        }
        divided := divided || ret.None?;
        left := left - 1;
      }
      var terminator := if c != NL then |stored| + 1 else |stored|;
      line := if divided then None else Some(Line(stored, terminator));
    }

    /** Reads one byte. None: nothing was copied (the cursor was at the end), so the byte
        returned is uninitialised. */
    method Get() returns (b: Option<Byte>)
      requires handler.InRange()
      modifies handler
      ensures old(handler.pos) < Size() ==> b == Some(handler.data[old(handler.pos)]) && Tell() == old(handler.pos) + 1
      ensures old(handler.pos) == Size() ==> b.None? && Tell() == old(handler.pos)
    {
      var bytes, ret := handler.Read(1);
      b := if |bytes| == 1 then Some(bytes[0]) else None;
    }

    /** Reads one byte and seeks one back. Before the end this leaves the cursor where it
        was; at the end nothing is read and the cursor still moves back by one. */
    method Peek() returns (b: Option<Byte>)
      requires handler.InRange()
      modifies handler
      ensures old(handler.pos) < Size() ==> b == Some(handler.data[old(handler.pos)]) && Tell() == old(handler.pos)
      ensures old(handler.pos) == Size() ==> b.None? && Tell() == old(handler.pos) - 1
    {
      b := Get();
      handler.Seek(-1, Cur);
    }

    /** Moves the cursor through the source. */
    method Seek(offset: int, origin: Origin)
      modifies handler
      ensures Tell() == SeekTarget(Size(), old(handler.pos), offset, origin)
      ensures origin == End && offset >= 0 ==> Eof()
    {
      handler.Seek(offset, origin);
      if origin == End {
        SeekEndClamps(Size(), old(handler.pos), offset);
      }
    }
  }
}
