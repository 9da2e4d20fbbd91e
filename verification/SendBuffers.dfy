/**
 The chunks that send buffers are cut from, as they lie in memory: 6000 bytes, then the chunk's own two
 fields, then whatever comes behind the chunk. Nothing stops a writer at the end of a buffer.
 */
module SendBuffers {
  import opened Common
  import opened Varint
  import opened Output

  /** SEND_BUFFER_CHUNK_SIZE, and the ranges of uint16 and uint32. */
  const CHUNK: nat := 6000
  const TWO_TO_16: nat := 0x1_0000

  /** Where _open and _usedSize lie, counted from the start of _buffer, and where the chunk ends. */
  const OPEN_AT: nat := CHUNK
  const USED_AT: nat := CHUNK + 4
  const CHUNK_END: nat := CHUNK + 8

  /** How much memory the model follows: as far as the largest packet could reach. */
  const MEMORY: nat := CHUNK_END + TWO_TO_16

  /** A 32-bit number, low byte first. */
  function Word(n: nat): (w: seq<Byte>)
    requires n < TWO_TO_32
    ensures |w| == 4
  {
    [n % 256, n / 256 % 256, n / 0x1_0000 % 256, n / 0x100_0000]
  }

  function UsedIn(mem: seq<Byte>): nat
    requires |mem| == MEMORY
  {
    mem[USED_AT] as int + 256 * mem[USED_AT + 1] as int
    + 0x1_0000 * mem[USED_AT + 2] as int + 0x100_0000 * mem[USED_AT + 3] as int
  }

  /** A bool compared with true. 0 is false and 1 is true; what any other byte is, is up to the compiler. */
  predicate IsTrue(b: Byte, anyNonZero: bool) {
    b == 1 || (anyNonZero && b != 0)
  }

  /** A new chunk, or one after Reset. */
  function Blank(): (mem: seq<Byte>)
    ensures |mem| == MEMORY
  {
    seq(MEMORY, _ => 0)
  }

  /** The memory after Close: _open is false and _usedSize has grown, modulo 2^32. */
  function Closed(mem: seq<Byte>, size: nat): (closed: seq<Byte>)
    requires |mem| == MEMORY
    ensures |closed| == MEMORY
  {
    Overwrite(mem[OPEN_AT := 0], USED_AT, Word((UsedIn(mem) + size) % TWO_TO_32))
  }

  lemma WordReadBack(mem: seq<Byte>, n: nat)
    requires |mem| == MEMORY && n < TWO_TO_32
    ensures UsedIn(Overwrite(mem, USED_AT, Word(n))) == n
  {
    var a, b, c, d := n % 256, n / 256 % 256, n / 0x1_0000 % 256, n / 0x100_0000;
    assert n / 256 == 256 * (n / 0x1_0000) + b && n / 0x1_0000 == 256 * d + c;
    var after := Overwrite(mem, USED_AT, Word(n));
    assert after[USED_AT] == a && after[USED_AT + 1] == b && after[USED_AT + 2] == c && after[USED_AT + 3] == d;
  }

  /** Where a buffer of this size starts: behind what is used, or at the start of another chunk. */
  function StartOf(used: nat, size: nat): nat {
    if used <= CHUNK && size <= CHUNK - used then used else 0
  }

  class SendBuffers {
    var chunk: array<Byte>

    function Used(): nat
      requires chunk.Length == MEMORY
      reads this, chunk
    {
      UsedIn(chunk[..])
    }

    /** No buffer is open, and what is used lies within the chunk. */
    predicate Valid()
      reads this, chunk
    {
      chunk.Length == MEMORY && chunk[OPEN_AT] == 0 && Used() <= CHUNK
    }

    constructor ()
      ensures Valid() && fresh(chunk) && Used() == 0
    {
      chunk := new Byte[MEMORY](_ => 0);
    }

    /** SendBufferManager::Open: a new chunk when the current one has too little left; stops on more than a chunk. */
    method Open(size: nat) returns (ok: bool)
      requires Valid()
      modifies this, chunk
      ensures ok == (size <= CHUNK) && chunk.Length == MEMORY
      ensures if size <= CHUNK - old(Used()) then chunk == old(chunk) else fresh(chunk)
      ensures ok ==> chunk[..] == (if fresh(chunk) then Blank() else old(chunk[..]))[OPEN_AT := 1]
      ensures old(chunk)[..CHUNK] == old(chunk[..CHUNK])
      ensures ok ==> Used() == StartOf(old(Used()), size)
    {
      ghost var before := chunk[..];
      if CHUNK - Used() < size {
        chunk := new Byte[MEMORY](_ => 0);
        assert chunk[..] == Blank();
      }
      ok := size <= CHUNK;
      if ok {
        chunk[OPEN_AT] := 1;
      }
    }

    /** SendBufferChunk::Close: it asserts that the chunk is open. */
    method Close(size: nat, anyNonZero: bool) returns (ok: bool)
      requires chunk.Length == MEMORY
      modifies chunk
      ensures ok == IsTrue(old(chunk[OPEN_AT]), anyNonZero)
      ensures chunk[..] == if ok then Closed(old(chunk[..]), size) else old(chunk[..])
      ensures chunk[..CHUNK] == old(chunk[..CHUNK])
    {
      ok := IsTrue(chunk[OPEN_AT], anyNonZero);
      if ok {
        var used := (Used() + size) % TWO_TO_32;
        chunk[OPEN_AT] := 0;
        var end := WriteRaw(Word(used), chunk, USED_AT);
      }
    }
  }
}
