/** The growing byte buffer (common/model/mem_store.cpp): a cursor over an allocated block. An owner doubles its
    block when it runs out of space; a store over foreign memory never does. */
module MemStore {
  import opened Bytes

  const FIRST_BLOCK := 1024

  /** The largest content for which there is a block: see GrowsIff. */
  const MAX_CONTENT := 0x8000_0000

  // ----- doubling

  /** The sizes of the blocks of an owner. */
  function Block(k: nat): nat {
    if k == 0 then FIRST_BLOCK else 2 * Block(k - 1)
  }

  const LAST_BLOCK := 21

  ghost predicate IsBlock(n: nat) {
    exists k: nat :: k <= LAST_BLOCK && Block(k) == n
  }

  lemma {:induction false} BlocksGrow(j: nat, k: nat)
    requires j <= k
    ensures FIRST_BLOCK <= Block(j) <= Block(k)
    decreases k
  {
    if j < k {
      BlocksGrow(j, k - 1);
    } else if k > 0 {
      BlocksGrow(k - 1, k - 1);
    }
  }

  lemma LastBlock()
    ensures Block(LAST_BLOCK) == MAX_CONTENT
  {
    assert Block(6) == 0x1_0000;
    assert Block(12) == 0x40_0000;
    assert Block(18) == 0x1000_0000;
  }

  lemma BlockBounds(n: nat)
    requires IsBlock(n)
    ensures FIRST_BLOCK <= n <= MAX_CONTENT
  {
    var k: nat :| k <= LAST_BLOCK && Block(k) == n;
    BlocksGrow(k, LAST_BLOCK);
    LastBlock();
  }

  /** A block that is not the largest has one of twice its size. */
  lemma NextBlock(n: nat)
    requires IsBlock(n) && n < MAX_CONTENT
    ensures IsBlock(2 * n) && 2 * n <= MAX_CONTENT
  {
    var k: nat :| k <= LAST_BLOCK && Block(k) == n;
    LastBlock();
    assert k < LAST_BLOCK;
    assert Block(k + 1) == 2 * n;
    BlockBounds(2 * n);
  }

  /** A size doubled `j` times in 32 bits. */
  function Doubled(size: nat, j: nat): nat {
    if j == 0 then size else Doubled(size, j - 1) * 2 % U32
  }

  lemma {:induction false} DoubledBlock(k: nat, j: nat)
    requires k <= LAST_BLOCK
    ensures Doubled(Block(k), j) == if k + j <= LAST_BLOCK then Block(k + j) else 0
  {
    if j > 0 {
      DoubledBlock(k, j - 1);
      LastBlock();
      if k + j <= LAST_BLOCK {
        BlocksGrow(k + j, LAST_BLOCK);
      }
    }
  }

  /** The loop in write stops: the free space, an unsigned difference, is enough. */
  predicate Stops(block: nat, fill: nat, size: nat, j: nat) {
    (Doubled(block, j) + U32 - fill) % U32 >= size
  }

  /** Doubling stops at a block with room if and only if the content will be at most 2^31 bytes. Beyond, it can only stop
      where the doubled size has become 0. */
  lemma GrowsIff(block: nat, fill: nat, size: nat)
    requires IsBlock(block) && fill <= block && block - fill < size < U32
    ensures (exists j: nat :: j > 0 && Stops(block, fill, size, j) && Doubled(block, j) >= fill + size)
            <==> fill + size <= MAX_CONTENT
    ensures fill + size > MAX_CONTENT ==> forall j: nat :: j > 0 && Stops(block, fill, size, j) ==> Doubled(block, j) == 0
  {
    hide IsBlock, Doubled;
    forall j: nat ensures Doubled(block, j) == 0 || block <= Doubled(block, j) <= MAX_CONTENT {
      DoubledBounds(block, j);
    }
    if fill + size <= MAX_CONTENT {
      var j := ReachesLast(block);
      if j == 0 {
        assert false;
      }
      StopsAtBlock(Doubled(block, j), fill, size);
      assert Stops(block, fill, size, j);
    }
    forall j: nat | Stops(block, fill, size, j) && Doubled(block, j) != 0 ensures fill + size <= MAX_CONTENT {
      StopsAtBlock(Doubled(block, j), fill, size);
    }
  }

  lemma StopsAtBlock(doubled: nat, fill: nat, size: nat)
    requires fill <= doubled < U32
    ensures (doubled + U32 - fill) % U32 >= size <==> doubled >= fill + size
  {
    assert (doubled + U32 - fill) % U32 == doubled - fill;
  }

  lemma DoubledBounds(block: nat, j: nat)
    requires IsBlock(block)
    ensures Doubled(block, j) == 0 || block <= Doubled(block, j) <= MAX_CONTENT
  {
    var k: nat :| k <= LAST_BLOCK && Block(k) == block;
    DoubledBlock(k, j);
    LastBlock();
    if k + j <= LAST_BLOCK {
      BlocksGrow(k, k + j);
      BlocksGrow(k + j, LAST_BLOCK);
    }
  }

  lemma ReachesLast(block: nat) returns (j: nat)
    requires IsBlock(block)
    ensures Doubled(block, j) == MAX_CONTENT && (j == 0 <==> block == MAX_CONTENT)
  {
    var k: nat :| k <= LAST_BLOCK && Block(k) == block;
    LastBlock();
    j := LAST_BLOCK - k;
    DoubledBlock(k, j);
    if k < LAST_BLOCK {
      BlocksGrow(k, LAST_BLOCK - 1);
      assert Block(LAST_BLOCK) == 2 * Block(LAST_BLOCK - 1);
    }
  }

  // ----- the store

  class CMemStore {
    var buff: array?<byte>        // the block
    var currPtr: nat              // the cursor, as an offset into the block
    var currSize: nat             // the size of the block
    var currFreeLimit: nat        // what is left behind the cursor
    const isMemOwner: bool
    ghost var moved: nat          // the bytes copied by all growth so far
    ghost var peak: nat           // the furthest position that any write has needed

    ghost predicate Valid()
      reads this, buff
    {
      && currPtr + currFreeLimit == currSize < U32
      && (if buff == null then currSize == 0 else buff.Length >= currSize)
      && (if isMemOwner then Frugal() && (buff != null ==> currSize > 0) else buff != null)
    }

    /** The block is at most twice the content, and growing it moved fewer bytes than it holds. */
    ghost predicate Frugal()
      reads this
    {
      && (currSize == 0 ==> moved == 0)
      && (currSize > 0 ==> IsBlock(currSize) && moved < currSize && (currSize == FIRST_BLOCK || currSize <= 2 * peak))
    }

    /** All bytes of the block. */
    ghost function Memory(): (s: seq<byte>)
      requires Valid()
      reads this, buff
      ensures |s| == currSize
    {
      if buff == null then [] else buff[..currSize]
    }

    /** What lies before the cursor: what was written since the last return to the start. */
    ghost function Written(): (s: seq<byte>)
      requires Valid()
      reads this, buff
      ensures |s| == currPtr
    {
      Memory()[..currPtr]
    }

    /** What lies behind the cursor: what can be read. */
    ghost function Rest(): (s: seq<byte>)
      requires Valid()
      reads this, buff
      ensures |s| == currFreeLimit
    {
      Memory()[currPtr..]
    }

    constructor ()
      ensures Valid() && isMemOwner && buff == null && Written() == [] && moved == 0 && peak == 0
    {
      buff, currPtr, currSize, currFreeLimit, isMemOwner := null, 0, 0, 0, true;
      moved, peak := 0, 0;
    }

    /** A store over the start of existing memory, for reading it. */
    constructor Over(memory: array<byte>, size: nat)
      requires size <= memory.Length && size < U32
      ensures Valid() && !isMemOwner && buff == memory && Written() == [] && Rest() == memory[..size]
    {
      buff, currPtr, currSize, currFreeLimit, isMemOwner := memory, 0, size, size, false;
      moved, peak := 0, 0;
    }

    /** size() in the source: the current amount of data. */
    function Size(): (n: nat)
      requires Valid()
      reads this, buff
      ensures n == |Written()|
    {
      currSize - currFreeLimit
    }

    method Write(data: seq<byte>) returns (code: int)
      requires Valid() && (isMemOwner ==> currPtr + |data| <= MAX_CONTENT)
      modifies this, buff
      ensures Valid() && (buff == old(buff) || fresh(buff))
      ensures code == if !isMemOwner && old(currFreeLimit) < |data| then 1 else 0
      ensures code == 0 ==> Written() == old(Written()) + data && peak == Max(old(peak), currPtr)
      ensures code != 0 ==> Written() == old(Written()) && Rest() == old(Rest()) && peak == old(peak)
      ensures old(buff) != null && old(currFreeLimit) >= |data| ==> buff == old(buff) && Rest() == old(Rest())[|data|..]
      ensures isMemOwner ==> currSize <= Max(FIRST_BLOCK, 2 * peak) && moved < currSize
      ensures !isMemOwner ==> buff == old(buff) && currSize == old(currSize)
      ensures currSize >= old(currSize) && moved >= old(moved)
    {
      hide CMemStore.Memory, IsBlock;
      if isMemOwner && buff == null {
        Allocate();
      }
      if currFreeLimit < |data| {
        if !isMemOwner {
          return 1;
        }
        Grow(|data|);
      }
      CopyIn(data);
      code := 0;
    }

    /** The first block. */
    method Allocate()
      requires Valid() && isMemOwner && buff == null
      modifies this
      ensures Valid() && buff != null && fresh(buff) && Written() == [] && currSize == FIRST_BLOCK
      ensures moved == old(moved) && peak == old(peak)
    {
      assert Block(0) == FIRST_BLOCK;
      currSize := FIRST_BLOCK;
      buff := new byte[FIRST_BLOCK];
      currPtr := 0;
      currFreeLimit := currSize;
    }

    /** The end of write: the bytes are put behind the cursor, which moves past them. */
    method CopyIn(data: seq<byte>)
      requires Valid() && buff != null && |data| <= currFreeLimit
      modifies this, buff
      ensures Valid() && buff == old(buff) && currSize == old(currSize) && moved == old(moved)
      ensures currPtr == old(currPtr) + |data| && peak == Max(old(peak), currPtr)
      ensures Written() == old(Written()) + data && Rest() == old(Rest())[|data|..]
    {
      ghost var before := Memory();
      forall i | 0 <= i < |data| {
        buff[currPtr + i] := data[i];
      }
      Pasting(before, currPtr, data);
      assert Memory() == Pasted(before, currPtr, data);
      hide CMemStore.Memory, Pasted, IsBlock;
      currPtr := currPtr + |data|;
      currFreeLimit := currFreeLimit - |data|;
      peak := Max(peak, currPtr);
    }

    /** The reallocation inside write: room for `size` more bytes in a block that was doubled until they fit. */
    method Grow(size: nat)
      requires Valid() && isMemOwner && buff != null && currFreeLimit < size && currPtr + size <= MAX_CONTENT
      modifies this
      ensures Valid() && buff != null && fresh(buff) && currPtr == old(currPtr) && Written() == old(Written())
      ensures currFreeLimit >= size && currSize > old(currSize) && moved >= old(moved)
      ensures peak == Max(old(peak), currPtr + size)
    {
      var newSize := NewSize(size);
      var fillPart := currSize - currFreeLimit;
      var newBuff := new byte[newSize];
      forall i | 0 <= i < fillPart {
        newBuff[i] := buff[i];
      }
      assert newBuff[..newSize][..fillPart] == buff[..currSize][..fillPart];
      hide IsBlock;
      moved := moved + fillPart;
      peak := Max(peak, currPtr + size);
      buff := newBuff;
      currPtr := fillPart;
      currSize := newSize;
      currFreeLimit := currSize - fillPart;
    }

    method NewSize(size: nat) returns (newSize: nat)
      requires Valid() && isMemOwner && buff != null && currFreeLimit < size && currPtr + size <= MAX_CONTENT
      ensures IsBlock(newSize) && 2 * currSize <= newSize < 2 * (currPtr + size) && currPtr + size <= newSize <= MAX_CONTENT
    {
      hide IsBlock;
      newSize := currSize;
      var fillPart := currSize - currFreeLimit;
      var newFreeLim := newSize - fillPart;
      while newFreeLim < size
        invariant currSize <= newSize < U32 && newFreeLim == newSize - fillPart
        invariant newSize == currSize || (2 * currSize <= newSize && newSize < 2 * (fillPart + size))
        invariant IsBlock(newSize)
        decreases MAX_CONTENT - newSize
      {
        BlockBounds(newSize);
        NextBlock(newSize);
        newSize := newSize * 2 % U32;
        newFreeLim := (newSize - fillPart) % U32;
      }
      BlockBounds(newSize);
    }

    /** With `realCopy` the bytes are copied out, otherwise only the cursor moves. What a read beyond the end copies
        is outside the block, so nothing is known of it. */
    method Read(size: nat, realCopy: bool) returns (code: int, data: seq<byte>)
      requires Valid()
      modifies this
      ensures Valid() && buff == old(buff) && currSize == old(currSize)
      ensures moved == old(moved) && peak == old(peak)
      ensures code == if old(currFreeLimit) >= size then 0 else 1
      ensures |data| == if realCopy then size else 0
      ensures code == 0 ==>
                && Rest() == old(Rest())[size..] && Written() == old(Written()) + old(Rest())[..size]
                && (realCopy ==> data == old(Rest())[..size])
      ensures code != 0 ==> Rest() == [] && Written() == old(Written()) + old(Rest())
    {
      WholeRest(Rest());
      hide CMemStore.Valid, CMemStore.Written, CMemStore.Rest;
      data := [];
      if realCopy {
        data := CopyOut(size);
      }
      if currFreeLimit >= size {
        Skip(size);
        code := 0;
      } else {
        Skip(currFreeLimit);
        code := 1;
      }
    }

    method CopyOut(size: nat) returns (data: seq<byte>)
      requires Valid()
      ensures |data| == size && (currFreeLimit >= size ==> data == Rest()[..size])
    {
      if currFreeLimit >= size {
        data := CopyWithin(size);
      } else {
        data := CopyBeyond(size);
      }
    }

    method CopyWithin(size: nat) returns (data: seq<byte>)
      requires Valid() && currFreeLimit >= size
      ensures data == Rest()[..size] && |data| == size
    {
      Piece(Memory(), currPtr, size);
      data := [];
      if buff != null {
        PieceOfStart(buff[..], currSize, currPtr, size);
        assert buff[..][..currSize] == buff[..currSize];
        data := buff[currPtr..currPtr + size];
        assert data == buff[..][currPtr..currPtr + size];
      }
    }

    /** What is beyond the block is not known, and nothing is said of it. */
    method CopyBeyond(size: nat) returns (data: seq<byte>)
      ensures |data| == size
    {
      data := seq(size, _ => 0);
    }

    method Skip(size: nat)
      requires Valid() && size <= currFreeLimit
      modifies this
      ensures Valid() && buff == old(buff) && currSize == old(currSize) && moved == old(moved) && peak == old(peak)
      ensures currFreeLimit == old(currFreeLimit) - size
      ensures Rest() == old(Rest())[size..] && Written() == old(Written()) + old(Rest())[..size]
    {
      Moved(Memory(), currPtr, size);
      hide CMemStore.Memory, IsBlock;
      currPtr := currPtr + size;
      currFreeLimit := currFreeLimit - size;
    }

    method SetPosition(position: nat) returns (code: int)
      requires Valid() && position < U32
      modifies this
      ensures Valid() && buff == old(buff) && currSize == old(currSize)
      ensures moved == old(moved) && peak == old(peak)
      ensures code == if position < currSize then 0 else 1
      ensures currPtr == if position < currSize then position else currSize
      ensures Memory() == old(Memory())
    {
      if position < currSize {
        currPtr := position;
        currFreeLimit := currSize - position;
        code := 0;
      } else {
        currPtr := currSize;
        currFreeLimit := 0;
        code := 1;
      }
    }
  }

  /** What lies before and behind a position `n` further on. */
  lemma Moved(block: seq<byte>, at: nat, n: nat)
    requires at + n <= |block|
    ensures block[..at + n] == block[..at] + block[at..][..n] && block[at + n..] == block[at..][n..]
  {
  }

  lemma Piece(block: seq<byte>, at: nat, n: nat)
    requires at + n <= |block|
    ensures block[at..at + n] == block[at..][..n]
  {
  }

  lemma PieceOfStart(all: seq<byte>, end: nat, at: nat, n: nat)
    requires at + n <= end <= |all|
    ensures all[..end][at..at + n] == all[at..at + n]
  {
  }

  /** The block after `data` was copied to position `at`. */
  function Pasted(block: seq<byte>, at: nat, data: seq<byte>): seq<byte>
    requires at + |data| <= |block|
  {
    block[..at] + data + block[at + |data|..]
  }

  lemma Pasting(block: seq<byte>, at: nat, data: seq<byte>)
    requires at + |data| <= |block|
    ensures var p := Pasted(block, at, data);
            |p| == |block| && p[..at + |data|] == block[..at] + data && p[at + |data|..] == block[at..][|data|..]
  {
  }

  lemma WholeRest(s: seq<byte>)
    ensures s[..|s|] == s && s[|s|..] == []
  {
  }

  function Max(a: nat, b: nat): nat {
    if a < b then b else a
  }

  /** A store over what another one has written, as the receiver of a message makes it. */
  method ReaderOf(ms: CMemStore) returns (reader: CMemStore)
    requires ms.Valid() && ms.Written() != []
    ensures fresh(reader) && reader.Valid() && reader.Rest() == ms.Written()
    ensures reader.buff == ms.buff
  {
    reader := new CMemStore.Over(ms.buff, ms.Size());
  }
}
