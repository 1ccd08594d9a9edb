/** The in-memory byte source (MemFile) and the cursor arithmetic it performs. */
module MemFiles {
  import opened Wrappers

  type Byte = bv8

  /** The three seek origins: std::ios::beg, std::ios::cur and std::ios::end. */
  datatype Origin = Beg | Cur | End

  /** Who frees the bytes. The two MemFile constructors differ only in this. */
  datatype Ownership = Owned | Borrowed

  function Min(a: int, b: int): int
  {
    if a <= b then a else b
  }

  /** How many bytes a read of `n` bytes copies from offset `pos` of a `size`-byte buffer:
      never more than asked for, never past the end, and short only at the end. */
  function ReadLength(size: nat, pos: int, n: nat): (k: nat)
    requires 0 <= pos <= size
    ensures k <= n && pos + k <= size
    ensures k < n ==> pos + k == size
    ensures pos + n <= size ==> k == n
  {
    Min(size - pos, n)
  }

  /** The bytes such a read copies into the caller's buffer. */
  function Copied(data: seq<Byte>, pos: int, n: nat): seq<Byte>
    requires 0 <= pos <= |data|
  {
    data[pos..pos + ReadLength(|data|, pos, n)]
  }

  /** What MemFile::read returns: the copied count divided by the buffer size, not the count
      itself. None stands for the division by zero on an empty buffer. */
  function ReadReturn(copied: nat, size: nat): (r: Option<nat>)
    requires copied <= size
    ensures r.None? <==> size == 0
    ensures r.Some? ==> (r.value == 1 <==> copied == size)
    ensures r.Some? ==> (r.value == 0 <==> copied < size)
  {
    if size == 0 then None else Some(copied / size)
  }

  /** The documented contract of `read` ("return the number of bytes read") holds of the
      value MemFile::read returns only when nothing was copied or the buffer is one byte long. */
  lemma ReadReturnIsCountOnlyWhen(copied: nat, size: nat)
    requires copied <= size
    ensures ReadReturn(copied, size) == Some(copied) <==> size > 0 && (copied == 0 || size == 1)
  {
    if size > 0 && copied > 0 && size > 1 {
      if copied == size {
        assert ReadReturn(copied, size) == Some(1);
      } else {
        assert ReadReturn(copied, size) == Some(0);
      }
    }
  }

  /** The new cursor offset after a seek. */
  function SeekTarget(size: nat, pos: int, offset: int, origin: Origin): int
  {
    match origin
    case Beg => offset
    case Cur => pos + offset
    case End => Min(size + offset, size)
  }

  /** Only the end origin clamps: from the end the cursor never passes `size`, and any
      non-negative offset lands exactly on it. */
  lemma SeekEndClamps(size: nat, pos: int, offset: int)
    ensures SeekTarget(size, pos, offset, End) <= size
    ensures offset >= 0 ==> SeekTarget(size, pos, offset, End) == size
    ensures 0 <= size + offset ==> 0 <= SeekTarget(size, pos, offset, End)
    ensures SeekTarget(size, pos, size + 1, Beg) == size + 1
    ensures SeekTarget(size, size, 1, Cur) == size + 1
  {
  }

  /** Consecutive reads of `k` and then `m` bytes copy what one read of `k + m` bytes copies. */
  lemma ReadsConcatenate(data: seq<Byte>, pos: int, k: nat, m: nat)
    requires 0 <= pos <= |data|
    ensures pos + |Copied(data, pos, k)| <= |data|
    ensures Copied(data, pos, k) + Copied(data, pos + |Copied(data, pos, k)|, m) == Copied(data, pos, k + m)
  {
    var a := ReadLength(|data|, pos, k);
    var b := ReadLength(|data|, pos + a, m);
    assert ReadLength(|data|, pos, k + m) == a + b;
    assert data[pos..pos + a] + data[pos + a..pos + a + b] == data[pos..pos + a + b];
  }

  function Sum(chunks: seq<nat>): nat
  {
    if chunks == [] then 0 else chunks[0] + Sum(chunks[1..])
  }

  /** The bytes copied by a series of reads with the given chunk sizes, starting at `pos`. */
  function ReadChunks(data: seq<Byte>, pos: int, chunks: seq<nat>): seq<Byte>
    requires 0 <= pos <= |data|
    decreases |chunks|
  {
    if chunks == [] then []
    else
      var first := Copied(data, pos, chunks[0]);
      first + ReadChunks(data, pos + |first|, chunks[1..])
  }

  /** Reading in arbitrary chunks reproduces the bytes in order; chunks that add up to at
      least the remaining length reproduce all of them. */
  lemma {:induction false} ChunkedReadsReproduce(data: seq<Byte>, pos: int, chunks: seq<nat>)
    requires 0 <= pos <= |data|
    ensures ReadChunks(data, pos, chunks) == Copied(data, pos, Sum(chunks))
    ensures Sum(chunks) >= |data| - pos ==> ReadChunks(data, pos, chunks) == data[pos..]
    decreases |chunks|
  {
    if chunks != [] {
      var first := Copied(data, pos, chunks[0]);
      ReadsConcatenate(data, pos, chunks[0], Sum(chunks[1..]));
      ChunkedReadsReproduce(data, pos + |first|, chunks[1..]);
    }
  }

  /** A byte source over a fixed in-memory buffer with a cursor. The C++ keeps two raw
      pointers (`beg` and `pointer`); here the cursor is the integer offset `pointer - beg`.
      (The owning C++ constructor initialises `beg` from its already moved-from parameter,
      and the archive handler frees an array with a scalar delete; those memory-safety
      defects are outside this model.) */
  class MemFile {
    const data: seq<Byte>
    const ownership: Ownership
    var pos: int

    /** The MemFile takes ownership of the data. */
    constructor Owning(data: seq<Byte>)
      ensures this.data == data && ownership == Owned && pos == 0
    {
      this.data := data;
      ownership := Owned;
      pos := 0;
    }

    /** The MemFile does not take ownership of the data. */
    constructor Borrowing(data: seq<Byte>)
      ensures this.data == data && ownership == Borrowed && pos == 0
    {
      this.data := data;
      ownership := Borrowed;
      pos := 0;
    }

    /** The total size, fixed at construction. */
    function Size(): (r: nat)
      ensures r == |data|
    {
      |data|
    }

    /** The cursor offset. */
    function Tell(): (r: int)
      reads this
      ensures InRange() <==> 0 <= r <= Size()
    {
      pos
    }

    /** The cursor lies inside the buffer or exactly at its end: what a read needs. */
    predicate InRange()
      reads this
    {
      0 <= pos <= |data|
    }

    /** Copies up to `n` bytes from the cursor, advances the cursor by the number copied and
        returns that number divided by the size. */
    method Read(n: nat) returns (bytes: seq<Byte>, ret: Option<nat>)
      requires InRange()
      modifies this
      ensures |bytes| == Min(|data| - old(pos), n)
      ensures bytes == data[old(pos)..old(pos) + |bytes|]
      ensures pos == old(pos) + |bytes| && InRange()
      ensures ret == ReadReturn(|bytes|, |data|)
    {
      var remaining := |data| - pos;
      var count := Min(remaining, n);
      bytes := data[pos..pos + count];
      pos := pos + count;
      ret := ReadReturn(count, |data|);
    }

    /** Moves the cursor; only the end origin clamps to the size. */
    method Seek(offset: int, origin: Origin)
      modifies this
      ensures pos == SeekTarget(|data|, old(pos), offset, origin)
      ensures origin == End ==> pos <= |data|
    {
      match origin {
        case Beg => pos := offset;
        case Cur => pos := pos + offset;
        case End => pos := Min(|data| + offset, |data|);
      }
    }
  }
}
