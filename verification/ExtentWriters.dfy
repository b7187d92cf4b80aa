/** Writing a byte stream into runs of disk blocks: DirectExtentWriter places each byte at the
    next address its extents name, and ZeroPadExtentWriter completes the last block with zeros. */
module ExtentWriters {
  import opened Extents
  import opened Sequences

  type Byte = bv8
  type DiskBytes = map<nat, Byte>

  // ----- Byte counts

  /** The size of n blocks, or the offset of block n.  The product is written as a sum so that
      the proofs below stay linear; BytesIsProduct says that it is the product. */
  function Bytes(n: nat, blockSize: nat): nat {
    if n == 0 then 0 else Bytes(n - 1, blockSize) + blockSize
  }

  lemma {:induction false} BytesIsProduct(n: nat, blockSize: nat)
    ensures Bytes(n, blockSize) == n * blockSize
  {
    if n > 0 {
      BytesIsProduct(n - 1, blockSize);
    }
  }

  lemma {:induction false} BytesOfSum(a: nat, b: nat, blockSize: nat)
    ensures Bytes(a + b, blockSize) == Bytes(a, blockSize) + Bytes(b, blockSize)
  {
    if b > 0 {
      BytesOfSum(a, b - 1, blockSize);
    }
  }

  lemma BytesMonotone(a: nat, b: nat, blockSize: nat)
    requires a <= b
    ensures Bytes(a, blockSize) <= Bytes(b, blockSize)
    ensures a < b ==> Bytes(a + 1, blockSize) == Bytes(a, blockSize) + blockSize <= Bytes(b, blockSize)
  {
    BytesOfSum(a, b - a, blockSize);
    if a < b {
      BytesOfSum(a + 1, b - a - 1, blockSize);
    }
  }

  /** Division with remainder, in terms of whole blocks. */
  lemma BlocksAndRest(total: nat, blockSize: nat)
    requires blockSize > 0
    ensures total == Bytes(total / blockSize, blockSize) + total % blockSize
  {
    BytesIsProduct(total / blockSize, blockSize);
  }

  lemma RestIsUnique(q: nat, r: nat, blockSize: nat)
    requires r < blockSize
    ensures (Bytes(q, blockSize) + r) % blockSize == r
    ensures (Bytes(q, blockSize) + r) / blockSize == q
  {
    var total := Bytes(q, blockSize) + r;
    BlocksAndRest(total, blockSize);
    var p := total / blockSize;
    if p < q {
      BytesMonotone(p, q, blockSize);
    } else if q < p {
      BytesMonotone(q, p, blockSize);
    }
  }

  // ----- Specification: where each byte of the stream goes

  /** The place of one byte of the stream: an address of the file, or nowhere. */
  datatype Slot = Hole | At(address: nat)

  function ExtentSlots(e: Extent, blockSize: nat): seq<Slot> {
    seq(Bytes(e.numBlocks, blockSize), k requires 0 <= k =>
      if e.startBlock == SPARSE_HOLE then Hole else At(Bytes(e.startBlock, blockSize) + k))
  }

  /** The places of all bytes that the extents can take, in stream order. */
  function Slots(extents: seq<Extent>, blockSize: nat): seq<Slot> {
    if extents == [] then [] else Slots(Front(extents), blockSize) + ExtentSlots(Last(extents), blockSize)
  }

  /** The one-byte-at-a-time writer: byte k goes to slot position + k; holes drop it. */
  function Place(disk: DiskBytes, slots: seq<Slot>, position: nat, data: seq<Byte>): DiskBytes
    requires position + |data| <= |slots|
  {
    if data == [] then disk
    else
      var before := Place(disk, slots, position, Front(data));
      match slots[position + |data| - 1]
      case Hole => before
      case At(a) => before[a := Last(data)]
  }

  /** Where the k-th byte of extent i goes: into its run of the file, or nowhere if it is a hole. */
  lemma SlotsMeaning(extents: seq<Extent>, blockSize: nat, i: nat, k: nat)
    requires i < |extents| && k < extents[i].numBlocks * blockSize
    ensures var n := TotalBlocks(extents[..i]) * blockSize + k;
            && n < |Slots(extents, blockSize)|
            && (extents[i].startBlock == SPARSE_HOLE ==> Slots(extents, blockSize)[n] == Hole)
            && (extents[i].startBlock != SPARSE_HOLE ==>
                  Slots(extents, blockSize)[n] == At(extents[i].startBlock * blockSize + k))
  {
    var e := extents[i];
    SlotsLength(extents[..i], blockSize);
    SlotsOfPrefix(extents, blockSize, i);
    BytesIsProduct(TotalBlocks(extents[..i]), blockSize);
    BytesIsProduct(e.numBlocks, blockSize);
    BytesIsProduct(e.startBlock, blockSize);
    var before, slots := Slots(extents[..i], blockSize), Slots(extents, blockSize);
    assert ExtentSlots(e, blockSize)[k] == if e.startBlock == SPARSE_HOLE then Hole else At(e.startBlock * blockSize + k);
    assert (before + ExtentSlots(e, blockSize))[|before| + k] == ExtentSlots(e, blockSize)[k];
    hide *;
    assert slots[..|before| + |ExtentSlots(e, blockSize)|] == before + ExtentSlots(e, blockSize);
  }

  lemma PlaceNothing(disk: DiskBytes, slots: seq<Slot>, position: nat)
    requires position <= |slots|
    ensures Place(disk, slots, position, []) == disk
  {
  }

  /** A contiguous write at a file offset. */
  function Stored(disk: DiskBytes, offset: nat, data: seq<Byte>): DiskBytes {
    if data == [] then disk else Stored(disk, offset, Front(data))[offset + |data| - 1 := Last(data)]
  }

  lemma {:induction false} StoredConcat(disk: DiskBytes, offset: nat, a: seq<Byte>, b: seq<Byte>)
    ensures Stored(disk, offset, a + b) == Stored(Stored(disk, offset, a), offset + |a|, b)
  {
    if b == [] {
      assert a + b == a;
    } else {
      StoredConcat(disk, offset, a, Front(b));
      assert Front(a + b) == a + Front(b);
    }
  }

  /** Any split of the data into two writes gives the disk of a single write. */
  lemma {:induction false} PlaceConcat(disk: DiskBytes, slots: seq<Slot>, position: nat, a: seq<Byte>, b: seq<Byte>)
    requires position + |a| + |b| <= |slots|
    ensures Place(disk, slots, position, a + b)
         == Place(Place(disk, slots, position, a), slots, position + |a|, b)
  {
    if b == [] {
      assert a + b == a;
    } else {
      PlaceConcat(disk, slots, position, a, Front(b));
      assert Front(a + b) == a + Front(b);
    }
  }

  /** Within one run, placing bytes is a contiguous write, or nothing if the run is a hole. */
  lemma {:induction false} PlaceInRun(disk: DiskBytes, slots: seq<Slot>, position: nat, data: seq<Byte>, hole: bool, offset: nat)
    requires position + |data| <= |slots|
    requires forall j | position <= j < position + |data| ::
               slots[j] == if hole then Hole else At(offset + j - position)
    ensures Place(disk, slots, position, data) == if hole then disk else Stored(disk, offset, data)
  {
    if data != [] {
      PlaceInRun(disk, slots, position, Front(data), hole, offset);
    }
  }

  lemma {:induction false} SlotsOfPrefix(extents: seq<Extent>, blockSize: nat, i: nat)
    requires i < |extents|
    ensures Slots(extents[..i + 1], blockSize) == Slots(extents[..i], blockSize) + ExtentSlots(extents[i], blockSize)
    ensures Slots(extents[..i + 1], blockSize) <= Slots(extents, blockSize)
    decreases |extents|
  {
    assert Front(extents[..i + 1]) == extents[..i];
    if i == |extents| - 1 {
      assert extents[..i + 1] == extents;
    } else {
      SlotsOfPrefix(Front(extents), blockSize, i);
      assert Front(extents)[..i + 1] == extents[..i + 1];
      assert Front(extents)[..i] == extents[..i];
    }
  }

  // ----- The file

  /** An open file; writes may be short but make progress, and no I/O error occurs. */
  class File {
    var bytes: DiskBytes
    var offset: nat

    constructor (bytes: DiskBytes)
      ensures this.bytes == bytes
    {
      this.bytes, offset := bytes, 0;
    }

    method Seek(offset: nat)
      modifies this`offset
      ensures this.offset == offset
    {
      this.offset := offset;
    }

    method Write(buf: seq<Byte>) returns (rc: nat)
      requires buf != []
      modifies this
      ensures 1 <= rc <= |buf|
      ensures bytes == Stored(old(bytes), old(offset), buf[..rc])
      ensures offset == old(offset) + rc
    {
      rc :| 1 <= rc <= |buf|;
      ghost var before := bytes;
      for k := 0 to rc
        invariant bytes == Stored(before, offset, buf[..k])
        invariant offset == old(offset)
      {
        assert Front(buf[..k + 1]) == buf[..k];
        bytes := bytes[offset + k := buf[k]];
      }
      offset := offset + rc;
    }
  }

  /** Short writes are repeated until the whole buffer is stored at the current offset. */
  method WriteAll(fd: File, buf: seq<Byte>)
    modifies fd
    ensures fd.bytes == Stored(old(fd.bytes), old(fd.offset), buf)
    ensures fd.offset == old(fd.offset) + |buf|
  {
    var bytesWritten := 0;
    while bytesWritten < |buf|
      invariant bytesWritten <= |buf|
      invariant fd.bytes == Stored(old(fd.bytes), old(fd.offset), buf[..bytesWritten])
      invariant fd.offset == old(fd.offset) + bytesWritten
    {
      var rest := buf[bytesWritten..];
      var rc := fd.Write(rest);
      StoredConcat(old(fd.bytes), old(fd.offset), buf[..bytesWritten], rest[..rc]);
      assert buf[..bytesWritten] + rest[..rc] == buf[..bytesWritten + rc];
      bytesWritten := bytesWritten + rc;
    }
    assert buf[..bytesWritten] == buf;
  }

  // ----- DirectExtentWriter

  /** What the writer demands of its extents: none is empty, and no byte count or file offset
      leaves its C++ type (uint64 and the signed off64_t). */
  ghost predicate Writable(extents: seq<Extent>, blockSize: nat) {
    && blockSize > 0
    && forall i | 0 <= i < |extents| ::
         && extents[i].numBlocks > 0
         && Bytes(extents[i].numBlocks, blockSize) < UINT64_MODULUS
         && (extents[i].startBlock != SPARSE_HOLE ==>
               Bytes(extents[i].startBlock, blockSize) + Bytes(extents[i].numBlocks, blockSize) < UINT64_MODULUS / 2)
  }

  function Uint64(x: nat): nat {
    x % UINT64_MODULUS
  }

  /** The writer's uint64 products do not wrap. */
  lemma RunFitsTypes(extents: seq<Extent>, blockSize: nat, index: nat, within: nat)
    requires Writable(extents, blockSize) && index < |extents|
    requires within < Bytes(extents[index].numBlocks, blockSize)
    ensures Uint64(Bytes(extents[index].numBlocks, blockSize)) == Bytes(extents[index].numBlocks, blockSize)
    ensures extents[index].startBlock != SPARSE_HOLE ==>
              Uint64(Bytes(extents[index].startBlock, blockSize) + within) == Bytes(extents[index].startBlock, blockSize) + within
  {
  }

  lemma RunNotEmpty(extents: seq<Extent>, blockSize: nat, index: nat)
    requires Writable(extents, blockSize)
    ensures index < |extents| ==> 0 < Bytes(extents[index].numBlocks, blockSize)
  {
  }

  /** A chunk that stays inside the current run is one contiguous write at the run's offset. */
  lemma ChunkPlaced(extents: seq<Extent>, blockSize: nat, index: nat, within: nat,
                    before: DiskBytes, start: nat, written: seq<Byte>, chunk: seq<Byte>, disk: DiskBytes)
    requires index < |extents|
    requires within + |chunk| <= Bytes(extents[index].numBlocks, blockSize)
    requires start + |written| == |Slots(extents[..index], blockSize)| + within <= |Slots(extents, blockSize)|
    requires disk == Place(before, Slots(extents, blockSize), start, written)
    ensures |Slots(extents[..index + 1], blockSize)|
         == |Slots(extents[..index], blockSize)| + Bytes(extents[index].numBlocks, blockSize)
         <= |Slots(extents, blockSize)|
    ensures Place(before, Slots(extents, blockSize), start, written + chunk)
         == if extents[index].startBlock == SPARSE_HOLE then disk
            else Stored(disk, Bytes(extents[index].startBlock, blockSize) + within, chunk)
  {
    hide Place, Stored, Slots;
    var slots := Slots(extents, blockSize);
    SlotsOfPrefix(extents, blockSize, index);
    var base := |Slots(extents[..index], blockSize)|;
    var run := ExtentSlots(extents[index], blockSize);
    PlaceConcat(before, slots, start, written, chunk);
    forall j | base + within <= j < base + within + |chunk|
      ensures slots[j] == run[j - base]
    {
      assert slots[j] == Slots(extents[..index + 1], blockSize)[j];
    }
    PlaceInRun(disk, slots, base + within, chunk,
               extents[index].startBlock == SPARSE_HOLE, Bytes(extents[index].startBlock, blockSize) + within);
  }

  function Min(a: nat, b: nat): nat {
    if a < b then a else b
  }

  class DirectExtentWriter {
    var fd: File?
    var blockSize: nat
    var extentBytesWritten: nat
    var extents: seq<Extent>
    var nextExtentIndex: nat
    var endCalled: bool

    ghost predicate Valid()
      reads this
    {
      && fd != null
      && Writable(extents, blockSize)
      && nextExtentIndex <= |extents|
      && (if nextExtentIndex == |extents| then extentBytesWritten == 0
          else extentBytesWritten < Bytes(extents[nextExtentIndex].numBlocks, blockSize))
    }

    /** All places that the extents offer. */
    ghost function AllSlots(): seq<Slot>
      reads this
    {
      Slots(extents, blockSize)
    }

    /** The number of bytes taken so far, holes included. */
    ghost function Position(): nat
      requires nextExtentIndex <= |extents|
      reads this
    {
      |Slots(extents[..nextExtentIndex], blockSize)| + extentBytesWritten
    }

    constructor ()
      ensures fd == null && nextExtentIndex == 0 && extentBytesWritten == 0 && !endCalled
    {
      fd, blockSize, extentBytesWritten, extents, nextExtentIndex, endCalled := null, 0, 0, [], 0, false;
    }

    /** Init does not reset the position: only a writer that has not written yet is then at the
        beginning of its extents. */
    method Init(fd: File, extents: seq<Extent>, blockSize: nat) returns (ok: bool)
      modifies this
      ensures ok
      ensures this.fd == fd && this.extents == extents && this.blockSize == blockSize
      ensures nextExtentIndex == old(nextExtentIndex) && extentBytesWritten == old(extentBytesWritten)
      ensures endCalled == old(endCalled)
      ensures old(nextExtentIndex) == 0 && old(extentBytesWritten) == 0 && Writable(extents, blockSize) ==>
                Valid() && Position() == 0
    {
      this.fd, this.blockSize, this.extents := fd, blockSize, extents;
      return true;
    }

    /** Write refines the one-byte-at-a-time writer: it places as many bytes as fit, and
        succeeds exactly when all of them do. */
    method Write(bytes: seq<Byte>) returns (ok: bool)
      requires Valid()
      modifies this`extentBytesWritten, this`nextExtentIndex, fd
      ensures Valid()
      ensures ok <==> old(Position()) + |bytes| <= |AllSlots()|
      ensures old(Position()) <= Position() <= |AllSlots()|
      ensures Position() == Min(old(Position()) + |bytes|, |AllSlots()|)
      ensures fd.bytes == Place(old(fd.bytes), AllSlots(), old(Position()), bytes[..Position() - old(Position())])
    {
      hide Slots, Place, Stored, Bytes, Writable;
      PositionInRange();
      PlaceNothing(fd.bytes, AllSlots(), Position());
      assert bytes[..0] == [];
      if |bytes| == 0 {
        return true;
      }
      ghost var start := Position();
      ghost var slots := AllSlots();
      ghost var before := fd.bytes;
      var bytesWritten := 0;
      while |bytes| - bytesWritten > 0
        invariant Valid()
        invariant bytesWritten <= |bytes|
        invariant Position() == start + bytesWritten <= |slots|
        invariant fd.bytes == Place(before, slots, start, bytes[..bytesWritten])
      {
        if nextExtentIndex >= |extents| {
          assert extents[..nextExtentIndex] == extents;
          return false;
        }
        var e := extents[nextExtentIndex];
        RunFitsTypes(extents, blockSize, nextExtentIndex, extentBytesWritten);
        var bytesRemainingNextExtent := Uint64(Bytes(e.numBlocks, blockSize)) - extentBytesWritten;
        assert bytesRemainingNextExtent != 0;
        var bytesToWrite := Min(|bytes| - bytesWritten, bytesRemainingNextExtent);
        var chunk := bytes[bytesWritten..bytesWritten + bytesToWrite];
        ChunkPlaced(extents, blockSize, nextExtentIndex, extentBytesWritten,
                    before, start, bytes[..bytesWritten], chunk, fd.bytes);
        ghost var written := bytes[..bytesWritten + bytesToWrite];
        assert bytes[..bytesWritten] + chunk == written;
        if e.startBlock != SPARSE_HOLE {
          fd.Seek(Uint64(Bytes(e.startBlock, blockSize) + extentBytesWritten));
          WriteAll(fd, chunk);
        }
        assert fd.bytes == Place(before, slots, start, written);
        bytesWritten := bytesWritten + bytesToWrite;
        extentBytesWritten := extentBytesWritten + bytesToWrite;
        if bytesRemainingNextExtent == bytesToWrite {
          assert extentBytesWritten == Uint64(Bytes(e.numBlocks, blockSize));
          extentBytesWritten := 0;
          nextExtentIndex := nextExtentIndex + 1;
          RunNotEmpty(extents, blockSize, nextExtentIndex);
        }
      }
      assert bytes[..bytesWritten] == bytes;
      return true;
    }

    lemma PositionInRange()
      requires Valid()
      ensures Position() <= |AllSlots()|
    {
      if nextExtentIndex < |extents| {
        SlotsOfPrefix(extents, blockSize, nextExtentIndex);
      } else {
        assert extents[..nextExtentIndex] == extents;
      }
    }

    method End() returns (ok: bool)
      modifies this`endCalled
      ensures ok && endCalled
    {
      endCalled := true;
      return true;
    }
  }

  // ----- ZeroPadExtentWriter

  function Zeros(n: nat): seq<Byte> {
    seq(n, _ => 0)
  }

  lemma ZerosAreZero(n: nat)
    ensures |Zeros(n)| == n && forall k | 0 <= k < n :: Zeros(n)[k] == 0
  {
  }

  /** The bytes missing from the last block. */
  function PadLength(total: nat, blockSize: nat): nat
    requires blockSize > 0
  {
    if total % blockSize == 0 then 0 else blockSize - total % blockSize
  }

  class ZeroPadExtentWriter {
    const underlying: DirectExtentWriter
    var blockSize: nat
    var bytesWrittenModBlockSize: nat
    var endCalled: bool

    /** The running residue is the underlying total modulo the block size. */
    ghost predicate Valid()
      reads this, underlying
    {
      && underlying.Valid()
      && blockSize == underlying.blockSize
      && bytesWrittenModBlockSize == underlying.Position() % blockSize
    }

    constructor (underlying: DirectExtentWriter)
      ensures this.underlying == underlying
      ensures blockSize == 0 && bytesWrittenModBlockSize == 0 && !endCalled
    {
      this.underlying := underlying;
      blockSize, bytesWrittenModBlockSize, endCalled := 0, 0, false;
    }

    method Init(fd: File, extents: seq<Extent>, blockSize: nat) returns (ok: bool)
      modifies this`blockSize, underlying
      ensures ok
      ensures old(bytesWrittenModBlockSize) == 0 && old(underlying.nextExtentIndex) == 0
              && old(underlying.extentBytesWritten) == 0 && Writable(extents, blockSize) ==>
                Valid() && underlying.Position() == 0
      ensures underlying.fd == fd && underlying.extents == extents && this.blockSize == blockSize
    {
      this.blockSize := blockSize;
      ok := underlying.Init(fd, extents, blockSize);
    }

    /** A write that does not fit fails and leaves the residue behind. */
    method Write(bytes: seq<Byte>) returns (ok: bool)
      requires Valid()
      modifies this`bytesWrittenModBlockSize
      modifies underlying`extentBytesWritten, underlying`nextExtentIndex, underlying.fd
      ensures underlying.Valid()
      ensures ok <==> old(underlying.Position()) + |bytes| <= |underlying.AllSlots()|
      ensures ok ==> Valid() && underlying.Position() == old(underlying.Position()) + |bytes|
      ensures ok ==> (underlying.fd.bytes
                      == Place(old(underlying.fd.bytes), underlying.AllSlots(), old(underlying.Position()), bytes))
    {
      hide Slots, Place, Bytes;
      ghost var total := underlying.Position();
      ok := underlying.Write(bytes);
      if ok {
        assert bytes[..|bytes|] == bytes;
        ResidueOfSum(total, |bytes|, blockSize);
        bytesWrittenModBlockSize := (bytesWrittenModBlockSize + |bytes|) % blockSize;
      }
    }

    /** Padding always fits, and takes the total to the least multiple of the block size that
        is not below it. */
    method EndImpl() returns (ok: bool)
      requires Valid()
      modifies underlying`extentBytesWritten, underlying`nextExtentIndex, underlying`endCalled, underlying.fd
      ensures ok && underlying.Valid() && underlying.endCalled
      ensures underlying.Position() % blockSize == 0
      ensures old(underlying.Position()) <= underlying.Position() < old(underlying.Position()) + blockSize
      ensures old(underlying.Position()) + PadLength(old(underlying.Position()), blockSize) <= |underlying.AllSlots()|
      ensures underlying.fd.bytes
           == Place(old(underlying.fd.bytes), underlying.AllSlots(), old(underlying.Position()),
                    Zeros(PadLength(old(underlying.Position()), blockSize)))
      ensures exists zeros: seq<Byte> ::
                && (forall k | 0 <= k < |zeros| :: zeros[k] == 0)
                && old(underlying.Position()) + |zeros| == underlying.Position() <= |underlying.AllSlots()|
                && underlying.fd.bytes
                   == Place(old(underlying.fd.bytes), underlying.AllSlots(), old(underlying.Position()), zeros)
    {
      hide Slots, Place, Bytes, BlocksFilled;
      ghost var total := underlying.Position();
      underlying.PositionInRange();
      SlotsLength(underlying.extents, blockSize);
      PaddingFits(total, blockSize, TotalBlocks(underlying.extents));
      PlaceNothing(underlying.fd.bytes, underlying.AllSlots(), total);
      assert Zeros(0) == [];
      if bytesWrittenModBlockSize != 0 {
        var writeSize := blockSize - bytesWrittenModBlockSize;
        var zeros := Zeros(writeSize);
        var written := underlying.Write(zeros);
        assert zeros[..writeSize] == zeros;
        if !written {
          return false;
        }
      }
      ok := underlying.End();
    }

    method End() returns (ok: bool)
      requires Valid()
      modifies this`endCalled
      modifies underlying`extentBytesWritten, underlying`nextExtentIndex, underlying`endCalled, underlying.fd
      ensures ok && underlying.Valid() && endCalled && underlying.endCalled
      ensures underlying.Position() % blockSize == 0
      ensures old(underlying.Position()) + PadLength(old(underlying.Position()), blockSize) <= |underlying.AllSlots()|
      ensures underlying.fd.bytes
           == Place(old(underlying.fd.bytes), underlying.AllSlots(), old(underlying.Position()),
                    Zeros(PadLength(old(underlying.Position()), blockSize)))
    {
      endCalled := true;
      ok := EndImpl();
    }
  }

  lemma ResidueOfSum(a: nat, b: nat, n: nat)
    requires n > 0
    ensures (a % n + b) % n == (a + b) % n
  {
    var x := a % n + b;
    BlocksAndRest(a, n);
    BlocksAndRest(x, n);
    BytesOfSum(a / n, x / n, n);
    RestIsUnique(a / n + x / n, x % n, n);
  }

  /** The number of blocks that the padded data fills. */
  function BlocksFilled(total: nat, blockSize: nat): nat
    requires blockSize > 0
  {
    total / blockSize + if total % blockSize == 0 then 0 else 1
  }

  /** Padded data fills whole blocks, and fits wherever the data fits in whole blocks. */
  lemma PaddingFits(total: nat, blockSize: nat, blocks: nat)
    requires blockSize > 0 && total <= Bytes(blocks, blockSize)
    ensures total + PadLength(total, blockSize) == Bytes(BlocksFilled(total, blockSize), blockSize)
    ensures BlocksFilled(total, blockSize) <= blocks
    ensures total + PadLength(total, blockSize) <= Bytes(blocks, blockSize)
    ensures (total + PadLength(total, blockSize)) % blockSize == 0
  {
    var n := BlocksFilled(total, blockSize);
    BlocksAndRest(total, blockSize);
    RestIsUnique(n, 0, blockSize);
    if blocks < n {
      BytesMonotone(blocks, total / blockSize, blockSize);
    }
    BytesMonotone(n, blocks, blockSize);
  }

  lemma {:induction false} SlotsLength(extents: seq<Extent>, blockSize: nat)
    ensures |Slots(extents, blockSize)| == Bytes(TotalBlocks(extents), blockSize)
  {
    if extents != [] {
      SlotsLength(Front(extents), blockSize);
      BytesOfSum(TotalBlocks(Front(extents)), Last(extents).numBlocks, blockSize);
    }
  }

  // ----- End to end: from a list of blocks to the bytes on disk

  function OneBlockSlots(block: nat, blockSize: nat): seq<Slot> {
    seq(blockSize, k requires 0 <= k => At(Bytes(block, blockSize) + k))
  }

  function BlockSlots(blocks: seq<nat>, blockSize: nat): seq<Slot> {
    if blocks == [] then [] else BlockSlots(Front(blocks), blockSize) + OneBlockSlots(Last(blocks), blockSize)
  }

  lemma {:induction false} BlockSlotsLength(blocks: seq<nat>, blockSize: nat)
    ensures |BlockSlots(blocks, blockSize)| == Bytes(|blocks|, blockSize)
  {
    if blocks != [] {
      BlockSlotsLength(Front(blocks), blockSize);
    }
  }

  lemma {:induction false} BlockSlotsConcat(a: seq<nat>, b: seq<nat>, blockSize: nat)
    ensures BlockSlots(a + b, blockSize) == BlockSlots(a, blockSize) + BlockSlots(b, blockSize)
  {
    if b == [] {
      assert a + b == a;
    } else {
      hide OneBlockSlots;
      assert Front(a + b) == a + Front(b) && Last(a + b) == Last(b);
      BlockSlotsConcat(a, Front(b), blockSize);
      SeqAssociative(BlockSlots(a, blockSize), BlockSlots(Front(b), blockSize), OneBlockSlots(Last(b), blockSize));
    }
  }

  lemma {:induction false} RunIsItsBlocks(e: Extent, blockSize: nat)
    requires e.startBlock != SPARSE_HOLE
    ensures ExtentSlots(e, blockSize) == BlockSlots(BlocksOf(e), blockSize)
    decreases e.numBlocks
  {
    if e.numBlocks > 0 {
      var shorter := e.(numBlocks := e.numBlocks - 1);
      RunIsItsBlocks(shorter, blockSize);
      assert Front(BlocksOf(e)) == BlocksOf(shorter);
      BytesOfSum(e.startBlock, e.numBlocks - 1, blockSize);
      assert ExtentSlots(e, blockSize)
          == ExtentSlots(shorter, blockSize) + OneBlockSlots(e.startBlock + e.numBlocks - 1, blockSize);
    }
  }

  /** The compressed extents offer exactly the bytes of the blocks, in the given order. */
  lemma {:induction false} ExtentsOfferTheirBlocks(extents: seq<Extent>, blockSize: nat)
    requires Canonical(extents) && RealBlocks(Expand(extents))
    ensures Slots(extents, blockSize) == BlockSlots(Expand(extents), blockSize)
  {
    if extents != [] {
      var init := Front(extents);
      LastBlockBound(extents);
      forall i | 0 <= i < |Expand(init)|
        ensures Expand(init)[i] < SPARSE_HOLE
      {
        assert Expand(extents)[i] == Expand(init)[i];
      }
      ExtentsOfferTheirBlocks(init, blockSize);
      var e := Last(extents);
      assert BlocksOf(e)[e.numBlocks - 1] == Last(Expand(extents));
      RunIsItsBlocks(e, blockSize);
      BlockSlotsConcat(Expand(init), BlocksOf(e), blockSize);
    }
  }

  ghost predicate Distinct(blocks: seq<nat>) {
    forall i, j | 0 <= i < j < |blocks| :: blocks[i] != blocks[j]
  }

  /** The addresses of a block. */
  predicate InBlock(address: nat, block: nat, blockSize: nat) {
    Bytes(block, blockSize) <= address < Bytes(block, blockSize) + blockSize
  }

  ghost predicate InBlocks(address: nat, blocks: seq<nat>, blockSize: nat) {
    exists i | 0 <= i < |blocks| :: InBlock(address, blocks[i], blockSize)
  }

  ghost predicate HoldsBlock(disk: DiskBytes, block: nat, blockSize: nat, content: seq<Byte>)
    requires |content| == blockSize
  {
    forall a: nat | InBlock(a, block, blockSize) ::
      a in disk && disk[a] == content[a - Bytes(block, blockSize)]
  }

  ghost predicate SameAt(before: DiskBytes, after: DiskBytes, address: nat) {
    && (address in before <==> address in after)
    && (address in before ==> before[address] == after[address])
  }

  /** Only the bytes of these blocks differ. */
  ghost predicate OnlyBlocksChanged(before: DiskBytes, after: DiskBytes, blocks: seq<nat>, blockSize: nat) {
    forall a: nat | !InBlocks(a, blocks, blockSize) :: SameAt(before, after, a)
  }

  lemma {:induction false} StoredAt(disk: DiskBytes, offset: nat, data: seq<Byte>, a: nat)
    ensures if offset <= a < offset + |data|
            then a in Stored(disk, offset, data) && Stored(disk, offset, data)[a] == data[a - offset]
            else SameAt(disk, Stored(disk, offset, data), a)
  {
    if data != [] {
      StoredAt(disk, offset, Front(data), a);
    }
  }

  lemma BlocksDoNotOverlap(b: nat, c: nat, blockSize: nat, a: nat)
    requires b != c && InBlock(a, b, blockSize)
    ensures !InBlock(a, c, blockSize)
  {
    if b < c {
      BytesMonotone(b, c, blockSize);
    } else {
      BytesMonotone(c, b, blockSize);
    }
  }

  /** The i-th block of the data. */
  function BlockContent(data: seq<Byte>, i: nat, blockSize: nat): (content: seq<Byte>)
    requires Bytes(i + 1, blockSize) <= |data|
    ensures |content| == blockSize
  {
    data[Bytes(i, blockSize)..Bytes(i + 1, blockSize)]
  }

  /** The first n blocks of the list hold the first n blocks of the data. */
  ghost predicate BlocksHold(disk: DiskBytes, blocks: seq<nat>, n: nat, data: seq<Byte>, blockSize: nat)
    requires n <= |blocks|
  {
    forall i | 0 <= i < n ::
      Bytes(i + 1, blockSize) <= |data|
      && HoldsBlock(disk, blocks[i], blockSize, BlockContent(data, i, blockSize))
  }

  /** A stored block holds its bytes, and other blocks keep theirs. */
  lemma StoreOneBlock(disk: DiskBytes, block: nat, tail: seq<Byte>, other: nat, content: seq<Byte>, blockSize: nat)
    requires |tail| == blockSize == |content|
    requires if other == block then content == tail else HoldsBlock(disk, other, blockSize, content)
    ensures HoldsBlock(Stored(disk, Bytes(block, blockSize), tail), other, blockSize, content)
  {
    hide Stored, Bytes;
    forall a: nat | InBlock(a, other, blockSize)
      ensures var end := Stored(disk, Bytes(block, blockSize), tail);
              a in end && end[a] == content[a - Bytes(other, blockSize)]
    {
      StoredAt(disk, Bytes(block, blockSize), tail, a);
      if other != block {
        BlocksDoNotOverlap(other, block, blockSize, a);
      }
    }
  }

  lemma BlockOfConcat(head: seq<Byte>, tail: seq<Byte>, m: nat, i: nat, blockSize: nat)
    requires i <= m && |head| == Bytes(m, blockSize) && |tail| == blockSize
    ensures Bytes(i + 1, blockSize) <= |head + tail|
    ensures i < m ==> Bytes(i + 1, blockSize) <= |head| && BlockContent(head + tail, i, blockSize) == BlockContent(head, i, blockSize)
    ensures i == m ==> BlockContent(head + tail, i, blockSize) == tail
  {
    BytesMonotone(i, m, blockSize);
  }

  lemma NextBlockStored(mid: DiskBytes, blocks: seq<nat>, m: nat, head: seq<Byte>, tail: seq<Byte>, i: nat, blockSize: nat)
    requires Distinct(blocks) && i <= m < |blocks|
    requires |head| == Bytes(m, blockSize) && |tail| == blockSize
    requires BlocksHold(mid, blocks, m, head, blockSize)
    ensures Bytes(i + 1, blockSize) <= |head + tail|
    ensures HoldsBlock(Stored(mid, Bytes(blocks[m], blockSize), tail), blocks[i], blockSize,
                       BlockContent(head + tail, i, blockSize))
  {
    hide Stored, HoldsBlock, Bytes, BlockContent;
    BlockOfConcat(head, tail, m, i, blockSize);
    if i < m {
      assert HoldsBlock(mid, blocks[i], blockSize, BlockContent(head, i, blockSize));
    }
    StoreOneBlock(mid, blocks[m], tail, blocks[i], BlockContent(head + tail, i, blockSize), blockSize);
  }

  /** Storing the next block of the data keeps the earlier ones. */
  lemma StoreNextBlock(mid: DiskBytes, blocks: seq<nat>, m: nat, head: seq<Byte>, tail: seq<Byte>, blockSize: nat)
    requires Distinct(blocks) && m < |blocks|
    requires |head| == Bytes(m, blockSize) && |tail| == blockSize
    requires BlocksHold(mid, blocks, m, head, blockSize)
    ensures BlocksHold(Stored(mid, Bytes(blocks[m], blockSize), tail), blocks, m + 1, head + tail, blockSize)
  {
    hide Stored, HoldsBlock, BlockContent;
    forall i | 0 <= i < m + 1
      ensures Bytes(i + 1, blockSize) <= |head + tail|
      ensures HoldsBlock(Stored(mid, Bytes(blocks[m], blockSize), tail), blocks[i], blockSize,
                         BlockContent(head + tail, i, blockSize))
    {
      NextBlockStored(mid, blocks, m, head, tail, i, blockSize);
    }
  }

  /** Storing a block of the list changes nothing outside the list. */
  lemma StoreInsideList(disk: DiskBytes, mid: DiskBytes, blocks: seq<nat>, m: nat, tail: seq<Byte>, blockSize: nat)
    requires m < |blocks| && |tail| == blockSize
    requires OnlyBlocksChanged(disk, mid, blocks[..m], blockSize)
    ensures OnlyBlocksChanged(disk, Stored(mid, Bytes(blocks[m], blockSize), tail), blocks[..m + 1], blockSize)
  {
    hide Stored, Bytes;
    forall a: nat | !InBlocks(a, blocks[..m + 1], blockSize)
      ensures SameAt(disk, Stored(mid, Bytes(blocks[m], blockSize), tail), a)
    {
      StoredAt(mid, Bytes(blocks[m], blockSize), tail, a);
      assert blocks[..m + 1][m] == blocks[m];
      if InBlocks(a, blocks[..m], blockSize) {
        var i :| 0 <= i < |blocks[..m]| && InBlock(a, blocks[..m][i], blockSize);
        assert InBlock(a, blocks[..m + 1][i], blockSize);
      }
    }
  }

  lemma SlotsOfBlock(blocks: seq<nat>, m: nat, blockSize: nat)
    requires m < |blocks|
    ensures Bytes(m + 1, blockSize) == Bytes(m, blockSize) + blockSize <= |BlockSlots(blocks, blockSize)|
    ensures forall j | Bytes(m, blockSize) <= j < Bytes(m, blockSize) + blockSize ::
              BlockSlots(blocks, blockSize)[j] == At(Bytes(blocks[m], blockSize) + j - Bytes(m, blockSize))
  {
    var upTo := blocks[..m + 1];
    BlockSlotsLength(blocks[..m], blockSize);
    BlockSlotsLength(upTo, blockSize);
    assert blocks == upTo + blocks[m + 1..];
    BlockSlotsConcat(upTo, blocks[m + 1..], blockSize);
    assert Front(upTo) == blocks[..m];
    var one := OneBlockSlots(blocks[m], blockSize);
    assert BlockSlots(upTo, blockSize) == BlockSlots(blocks[..m], blockSize) + one;
    forall j | Bytes(m, blockSize) <= j < Bytes(m, blockSize) + blockSize
      ensures BlockSlots(blocks, blockSize)[j] == At(Bytes(blocks[m], blockSize) + j - Bytes(m, blockSize))
    {
      assert BlockSlots(blocks, blockSize)[j] == one[j - Bytes(m, blockSize)];
    }
  }

  /** Placing n whole blocks of data stores the i-th block of the data in blocks[i]. */
  lemma {:induction false} WholeBlocksPlaced(disk: DiskBytes, blocks: seq<nat>, n: nat, data: seq<Byte>, blockSize: nat)
    requires Distinct(blocks) && n <= |blocks|
    requires |data| == Bytes(n, blockSize) <= |BlockSlots(blocks, blockSize)|
    ensures BlocksHold(Place(disk, BlockSlots(blocks, blockSize), 0, data), blocks, n, data, blockSize)
    ensures OnlyBlocksChanged(disk, Place(disk, BlockSlots(blocks, blockSize), 0, data), blocks[..n], blockSize)
    decreases n
  {
    hide *;
    var slots := BlockSlots(blocks, blockSize);
    if n == 0 {
      NoBlocksPlaced(disk, blocks, data, blockSize);
    } else {
      var m := n - 1;
      SlotsOfBlock(blocks, m, blockSize);
      var head, tail := data[..Bytes(m, blockSize)], data[Bytes(m, blockSize)..];
      assert data == head + tail;
      WholeBlocksPlaced(disk, blocks, m, head, blockSize);
      PlaceConcat(disk, slots, 0, head, tail);
      PlaceInRun(Place(disk, slots, 0, head), slots, |head|, tail, false, Bytes(blocks[m], blockSize));
      StoreNextBlock(Place(disk, slots, 0, head), blocks, m, head, tail, blockSize);
      StoreInsideList(disk, Place(disk, slots, 0, head), blocks, m, tail, blockSize);
    }
  }

  lemma NoBlocksPlaced(disk: DiskBytes, blocks: seq<nat>, data: seq<Byte>, blockSize: nat)
    requires |data| == Bytes(0, blockSize)
    ensures BlocksHold(Place(disk, BlockSlots(blocks, blockSize), 0, data), blocks, 0, data, blockSize)
    ensures OnlyBlocksChanged(disk, Place(disk, BlockSlots(blocks, blockSize), 0, data), blocks[..0], blockSize)
  {
    assert data == [];
    PlaceNothing(disk, BlockSlots(blocks, blockSize), 0);
    hide Place;
  }

  /** The disk after writing the chunks one after the other from the start of the stream. */
  function WrittenInChunks(disk: DiskBytes, slots: seq<Slot>, chunks: seq<seq<Byte>>): DiskBytes
    requires |Joined(chunks)| <= |slots|
  {
    if chunks == [] then disk
    else Place(WrittenInChunks(disk, slots, Front(chunks)), slots, |Joined(Front(chunks))|, Last(chunks))
  }

  /** Chunking does not matter. */
  lemma {:induction false} ChunkingIsInvisible(disk: DiskBytes, slots: seq<Slot>, chunks: seq<seq<Byte>>)
    requires |Joined(chunks)| <= |slots|
    ensures WrittenInChunks(disk, slots, chunks) == Place(disk, slots, 0, Joined(chunks))
  {
    if chunks == [] {
      PlaceNothing(disk, slots, 0);
    } else {
      ChunkingIsInvisible(disk, slots, Front(chunks));
      PlaceConcat(disk, slots, 0, Joined(Front(chunks)), Last(chunks));
    }
  }

  /** Byte k of block i of a file that data was written into, block by block and from blocks[0] on:
      it is the data's byte, or zero if the data ends within the block; and it is as it was if the
      data ends before the block. */
  ghost predicate ByteIsWritten(before: DiskBytes, after: DiskBytes, blocks: seq<nat>, blockSize: nat, data: seq<Byte>,
                                i: nat, k: nat)
    requires i < |blocks|
  {
    var address, position := Bytes(blocks[i], blockSize) + k, Bytes(i, blockSize) + k;
    if Bytes(i, blockSize) < |data| then
      address in after && after[address] == if position < |data| then data[position] else 0
    else SameAt(before, after, address)
  }

  ghost predicate AllWritten(before: DiskBytes, after: DiskBytes, blocks: seq<nat>, blockSize: nat, data: seq<Byte>) {
    && (forall i, k | 0 <= i < |blocks| && 0 <= k < blockSize :: ByteIsWritten(before, after, blocks, blockSize, data, i, k))
    && forall a: nat | !InBlocks(a, blocks, blockSize) :: SameAt(before, after, a)
  }

  /** The blocks that are reached are those that begin before the data ends. */
  lemma BlocksReached(total: nat, blockSize: nat, i: nat)
    requires blockSize > 0
    ensures i < BlocksFilled(total, blockSize) <==> Bytes(i, blockSize) < total
  {
    BlocksAndRest(total, blockSize);
    var q := total / blockSize;
    if i < q {
      BytesMonotone(i, q, blockSize);
    } else {
      BytesMonotone(q, i, blockSize);
    }
  }

  lemma BytesOfBlocks(before: DiskBytes, after: DiskBytes, blocks: seq<nat>, blockSize: nat, data: seq<Byte>, zeros: seq<Byte>)
    requires blockSize > 0 && Distinct(blocks) && zeros == Zeros(PadLength(|data|, blockSize))
    requires BlocksFilled(|data|, blockSize) <= |blocks|
    requires BlocksHold(after, blocks, BlocksFilled(|data|, blockSize), data + zeros, blockSize)
    requires OnlyBlocksChanged(before, after, blocks[..BlocksFilled(|data|, blockSize)], blockSize)
    ensures AllWritten(before, after, blocks, blockSize, data)
  {
    var n := BlocksFilled(|data|, blockSize);
    ZerosAreZero(PadLength(|data|, blockSize));
    hide Bytes, BlocksFilled, Zeros, PadLength, HoldsBlock, ByteIsWritten, SameAt, InBlocks;
    forall i, k | 0 <= i < |blocks| && 0 <= k < blockSize
      ensures ByteIsWritten(before, after, blocks, blockSize, data, i, k)
    {
      BlocksReached(|data|, blockSize, i);
      if i < n {
        BlockIsHeld(after, blocks, n, data + zeros, blockSize, i);
        ByteOfBlock(before, after, blocks, blockSize, data, zeros, i, k);
      } else {
        ByteAfterEnd(before, after, blocks, blockSize, data, n, i, k);
      }
    }
    forall a: nat | !InBlocks(a, blocks, blockSize)
      ensures SameAt(before, after, a)
    {
      if InBlocks(a, blocks[..n], blockSize) {
        InFirstBlocks(a, blocks, n, blockSize);
        assert false;
      }
    }
  }

  lemma InFirstBlocks(a: nat, blocks: seq<nat>, n: nat, blockSize: nat)
    requires n <= |blocks| && InBlocks(a, blocks[..n], blockSize)
    ensures InBlocks(a, blocks, blockSize)
  {
    hide InBlock;
    var i :| 0 <= i < |blocks[..n]| && InBlock(a, blocks[..n][i], blockSize);
    assert InBlock(a, blocks[i], blockSize);
  }

  lemma BlockIsHeld(disk: DiskBytes, blocks: seq<nat>, n: nat, data: seq<Byte>, blockSize: nat, i: nat)
    requires i < n <= |blocks| && BlocksHold(disk, blocks, n, data, blockSize)
    ensures Bytes(i + 1, blockSize) <= |data| && HoldsBlock(disk, blocks[i], blockSize, BlockContent(data, i, blockSize))
  {
    hide HoldsBlock;
    var block := blocks[i];
  }

  lemma ByteOfBlock(before: DiskBytes, after: DiskBytes, blocks: seq<nat>, blockSize: nat, data: seq<Byte>, zeros: seq<Byte>,
                    i: nat, k: nat)
    requires i < |blocks| && k < blockSize && Bytes(i + 1, blockSize) <= |data + zeros|
    requires HoldsBlock(after, blocks[i], blockSize, BlockContent(data + zeros, i, blockSize))
    requires Bytes(i, blockSize) < |data| && forall j | 0 <= j < |zeros| :: zeros[j] == 0
    ensures ByteIsWritten(before, after, blocks, blockSize, data, i, k)
  {
    var position, address := Bytes(i, blockSize) + k, Bytes(blocks[i], blockSize) + k;
    assert InBlock(address, blocks[i], blockSize);
    assert BlockContent(data + zeros, i, blockSize)[k] == (data + zeros)[position];
  }

  lemma ByteAfterEnd(before: DiskBytes, after: DiskBytes, blocks: seq<nat>, blockSize: nat, data: seq<Byte>,
                     n: nat, i: nat, k: nat)
    requires Distinct(blocks) && n <= i < |blocks| && k < blockSize && Bytes(i, blockSize) >= |data|
    requires OnlyBlocksChanged(before, after, blocks[..n], blockSize)
    ensures ByteIsWritten(before, after, blocks, blockSize, data, i, k)
  {
    hide Bytes;
    var address := Bytes(blocks[i], blockSize) + k;
    if InBlocks(address, blocks[..n], blockSize) {
      var j :| 0 <= j < |blocks[..n]| && InBlock(address, blocks[..n][j], blockSize);
      assert blocks[..n][j] == blocks[j] && blocks[j] != blocks[i];
      BlocksDoNotOverlap(blocks[i], blocks[j], blockSize, address);
      assert false;
    }
  }

  /** Build extents by appending distinct blocks in turn, write data in any chunks through the
      padding writer, and end: the i-th block of the zero-padded data is in blocks[i], for every
      block reached, and no other byte of the file differs. */
  lemma EndToEnd(disk: DiskBytes, blocks: seq<nat>, blockSize: nat, chunks: seq<seq<Byte>>)
    requires blockSize > 0 && Distinct(blocks) && RealBlocks(blocks)
    requires |Joined(chunks)| <= Bytes(|blocks|, blockSize)
    ensures var slots := Slots(Compress(blocks), blockSize);
            var data := Joined(chunks);
            var zeros := Zeros(PadLength(|data|, blockSize));
            var n := BlocksFilled(|data|, blockSize);
            && |data + zeros| == Bytes(n, blockSize) <= |slots|
            && n <= |blocks|
            && var end := Place(WrittenInChunks(disk, slots, chunks), slots, |data|, zeros);
            && BlocksHold(end, blocks, n, data + zeros, blockSize)
            && OnlyBlocksChanged(disk, end, blocks[..n], blockSize)
            && AllWritten(disk, end, blocks, blockSize, data)
  {
    hide AllWritten, BlocksHold, OnlyBlocksChanged, Place, BlockSlots, Slots, WrittenInChunks;
    var slots := Slots(Compress(blocks), blockSize);
    var data := Joined(chunks);
    var zeros := Zeros(PadLength(|data|, blockSize));
    CompressExpand(blocks);
    ExtentsOfferTheirBlocks(Compress(blocks), blockSize);
    BlockSlotsLength(blocks, blockSize);
    PaddingFits(|data|, blockSize, |blocks|);
    ChunkingIsInvisible(disk, slots, chunks);
    PlaceConcat(disk, slots, 0, data, zeros);
    WholeBlocksPlaced(disk, blocks, BlocksFilled(|data|, blockSize), data + zeros, blockSize);
    BytesOfBlocks(disk, Place(disk, slots, 0, data + zeros), blocks, blockSize, data, zeros);
  }

  /** The classes used together, as a client does: append the blocks in turn, initialise the
      writers, write every chunk, end.  No step fails, and the file ends as EndToEnd says: byte by
      byte, the data is in the blocks in their order, the last one is completed with zeros, and
      nothing else has changed. */
  method WriteBlocks(fd: File, blocks: seq<nat>, blockSize: nat, chunks: seq<seq<Byte>>) returns (ok: bool)
    requires blockSize > 0 && Distinct(blocks) && RealBlocks(blocks)
    requires Writable(Compress(blocks), blockSize)
    requires |Joined(chunks)| <= Bytes(|blocks|, blockSize)
    modifies fd
    ensures ok
    ensures BlocksFilled(|Joined(chunks)|, blockSize) <= |blocks|
    ensures BlocksHold(fd.bytes, blocks, BlocksFilled(|Joined(chunks)|, blockSize),
                       Joined(chunks) + Zeros(PadLength(|Joined(chunks)|, blockSize)), blockSize)
    ensures OnlyBlocksChanged(old(fd.bytes), fd.bytes, blocks[..BlocksFilled(|Joined(chunks)|, blockSize)], blockSize)
    ensures AllWritten(old(fd.bytes), fd.bytes, blocks, blockSize, Joined(chunks))
  {
    EndToEnd(fd.bytes, blocks, blockSize, chunks);
    hide AllWritten, BlocksHold, OnlyBlocksChanged, Place, Slots, Bytes, Writable, Joined, WrittenInChunks, RealBlocks, Distinct;
    var extents := ExtentsOf(blocks);
    var direct := new DirectExtentWriter();
    var pad := new ZeroPadExtentWriter(direct);
    ok := pad.Init(fd, extents.items, blockSize);
    ok := WriteChunks(pad, chunks);
    ok := pad.End();
  }

  method WriteChunks(pad: ZeroPadExtentWriter, chunks: seq<seq<Byte>>) returns (ok: bool)
    requires pad.Valid() && pad.underlying.Position() == 0
    requires |Joined(chunks)| <= |pad.underlying.AllSlots()|
    modifies pad`bytesWrittenModBlockSize
    modifies pad.underlying`extentBytesWritten, pad.underlying`nextExtentIndex, pad.underlying.fd
    ensures ok && pad.Valid() && pad.underlying.Position() == |Joined(chunks)|
    ensures pad.underlying.fd.bytes
         == WrittenInChunks(old(pad.underlying.fd.bytes), pad.underlying.AllSlots(), chunks)
  {
    hide Place, Slots, Bytes, Joined, WrittenInChunks;
    ghost var before, slots := pad.underlying.fd.bytes, pad.underlying.AllSlots();
    ok := true;
    NoChunks(before, slots);
    for i := 0 to |chunks|
      invariant ok && pad.Valid() && pad.underlying.AllSlots() == slots
      invariant pad.underlying.Position() == |Joined(chunks[..i])| <= |slots|
      invariant pad.underlying.fd.bytes == WrittenInChunks(before, slots, chunks[..i])
    {
      JoinedPrefix(chunks, i + 1);
      OneMoreChunk(before, slots, chunks, i);
      ok := pad.Write(chunks[i]);
    }
    assert chunks[..|chunks|] == chunks;
  }

  lemma NoChunks(disk: DiskBytes, slots: seq<Slot>)
    ensures Joined<Byte>([]) == [] && WrittenInChunks(disk, slots, []) == disk
  {
  }

  lemma OneMoreChunk(disk: DiskBytes, slots: seq<Slot>, chunks: seq<seq<Byte>>, i: nat)
    requires i < |chunks| && |Joined(chunks[..i + 1])| <= |slots|
    ensures |Joined(chunks[..i])| <= |slots|
    ensures |Joined(chunks[..i + 1])| == |Joined(chunks[..i])| + |chunks[i]|
    ensures WrittenInChunks(disk, slots, chunks[..i + 1])
         == Place(WrittenInChunks(disk, slots, chunks[..i]), slots, |Joined(chunks[..i])|, chunks[i])
  {
    assert Front(chunks[..i + 1]) == chunks[..i] && Last(chunks[..i + 1]) == chunks[i];
  }

  lemma {:induction false} JoinedPrefix(chunks: seq<seq<Byte>>, n: nat)
    requires n <= |chunks|
    ensures |Joined(chunks[..n])| <= |Joined(chunks)|
    decreases |chunks| - n
  {
    if n == |chunks| {
      assert chunks[..n] == chunks;
    } else {
      assert Front(chunks[..n + 1]) == chunks[..n];
      JoinedPrefix(chunks, n + 1);
    }
  }
}
