/** Runs of disk blocks, and the two loops that compress a list of blocks into runs:
    graph_utils' AppendBlockToExtents, one block at a time, and extent_mapper's FIBMAP loop,
    which keeps the run it is building in a local variable. */
module Extents {
  import opened Sequences

  const UINT64_MODULUS: nat := 0x1_0000_0000_0000_0000

  /** A run whose start block is SPARSE_HOLE stands for data that is never written. */
  const SPARSE_HOLE: nat := UINT64_MODULUS - 1

  datatype Extent = Extent(startBlock: nat, numBlocks: nat)

  /** The block after a run, as the uint64 sum of the two fields. */
  function NextBlock(e: Extent): nat {
    (e.startBlock + e.numBlocks) % UINT64_MODULUS
  }

  // ----- Meaning: the blocks a list of runs stands for

  function BlocksOf(e: Extent): seq<nat> {
    seq(e.numBlocks, i requires 0 <= i => e.startBlock + i)
  }

  function Expand(extents: seq<Extent>): seq<nat> {
    if extents == [] then [] else Expand(Front(extents)) + BlocksOf(Last(extents))
  }

  /** No run is empty, and no run could have been merged into the one before it. */
  ghost predicate Canonical(extents: seq<Extent>) {
    && (forall i | 0 <= i < |extents| :: extents[i].numBlocks > 0)
    && (forall i | 0 < i < |extents| :: NextBlock(extents[i - 1]) != extents[i].startBlock)
  }

  /** Block numbers that a run can hold without reaching the sparse-hole mark. */
  ghost predicate RealBlocks(blocks: seq<nat>) {
    forall i | 0 <= i < |blocks| :: blocks[i] < SPARSE_HOLE
  }

  // ----- AppendBlockToExtents

  function Appended(extents: seq<Extent>, block: nat): seq<Extent> {
    if extents != [] && NextBlock(Last(extents)) == block then
      Front(extents) + [Last(extents).(numBlocks := Last(extents).numBlocks + 1)]
    else
      extents + [Extent(block, 1)]
  }

  function AppendedAll(extents: seq<Extent>, blocks: seq<nat>): seq<Extent> {
    if blocks == [] then extents else Appended(AppendedAll(extents, Front(blocks)), Last(blocks))
  }

  function Compress(blocks: seq<nat>): seq<Extent> {
    AppendedAll([], blocks)
  }

  /** A caller's vector of runs, which both loops fill in place. */
  class ExtentVector {
    var items: seq<Extent>

    constructor ()
      ensures items == []
    {
      items := [];
    }
  }

  method AppendBlockToExtents(extents: ExtentVector, block: nat)
    modifies extents
    ensures extents.items == Appended(old(extents.items), block)
  {
    if extents.items != [] {
      var extent := Last(extents.items);
      if NextBlock(extent) == block {
        extents.items := extents.items[|extents.items| - 1 := extent.(numBlocks := extent.numBlocks + 1)];
        return;
      }
    }
    var newExtent := Extent(block, 1);
    extents.items := extents.items + [newExtent];
  }

  /** The runs of a list of blocks, appended in turn. */
  method ExtentsOf(blocks: seq<nat>) returns (extents: ExtentVector)
    ensures fresh(extents) && extents.items == Compress(blocks)
  {
    extents := new ExtentVector();
    for i := 0 to |blocks|
      invariant fresh(extents) && extents.items == Compress(blocks[..i])
    {
      AppendBlockToExtents(extents, blocks[i]);
      assert Front(blocks[..i + 1]) == blocks[..i];
    }
    assert blocks[..|blocks|] == blocks;
  }

  /** Appending a block appends it to the meaning, except when the last run ends exactly at
      2^64 and the block is the one its end wraps around to: then the run grows instead. */
  lemma AppendMeaning(extents: seq<Extent>, block: nat)
    requires extents != []
    ensures Expand(Appended(extents, block)) == Expand(extents) + [block]
       <==> !(NextBlock(Last(extents)) == block
              && Last(extents).startBlock + Last(extents).numBlocks != block)
  {
    var e := Last(extents);
    if NextBlock(e) == block {
      var grown := e.(numBlocks := e.numBlocks + 1);
      var r := Front(extents) + [grown];
      assert Front(r) == Front(extents);
      assert BlocksOf(grown) == BlocksOf(e) + [e.startBlock + e.numBlocks];
      assert Expand(r) == Expand(extents) + [e.startBlock + e.numBlocks];
      assert Last(Expand(r)) == e.startBlock + e.numBlocks;
      assert Last(Expand(extents) + [block]) == block;
    } else {
      ExpandPushed(extents, block);
    }
  }

  lemma ExpandPushed(extents: seq<Extent>, block: nat)
    ensures Expand(extents + [Extent(block, 1)]) == Expand(extents) + [block]
  {
    assert Front(extents + [Extent(block, 1)]) == extents;
    assert BlocksOf(Extent(block, 1)) == [block];
  }

  lemma LastBlockBound(extents: seq<Extent>)
    requires extents != [] && Last(extents).numBlocks > 0 && RealBlocks(Expand(extents))
    ensures Last(extents).startBlock + Last(extents).numBlocks < UINT64_MODULUS
    ensures NextBlock(Last(extents)) == Last(extents).startBlock + Last(extents).numBlocks
  {
    var bs := BlocksOf(Last(extents));
    assert Last(Expand(extents)) == bs[|bs| - 1];
    assert Last(Expand(extents)) < SPARSE_HOLE;
  }

  /** One append: the meaning gains the block and the list stays canonical. */
  lemma AppendOne(extents: seq<Extent>, block: nat)
    requires Canonical(extents) && RealBlocks(Expand(extents))
    ensures Canonical(Appended(extents, block))
    ensures Expand(Appended(extents, block)) == Expand(extents) + [block]
  {
    if extents == [] {
      ExpandPushed([], block);
      assert [] + [Extent(block, 1)] == [Extent(block, 1)];
    } else {
      LastBlockBound(extents);
      AppendMeaning(extents, block);
    }
  }

  /** Expanding undoes compressing, and compressing leaves nothing to merge. */
  lemma {:induction false} CompressExpand(blocks: seq<nat>)
    requires RealBlocks(blocks)
    ensures Expand(Compress(blocks)) == blocks
    ensures Canonical(Compress(blocks))
  {
    if blocks != [] {
      hide Canonical, Expand, Appended;
      CompressExpand(Front(blocks));
      AppendOne(Compress(Front(blocks)), Last(blocks));
      assert Front(blocks) + [Last(blocks)] == blocks;
    }
  }

  lemma {:induction false} AppendedAllConcat(extents: seq<Extent>, a: seq<nat>, b: seq<nat>)
    ensures AppendedAll(extents, a + b) == AppendedAll(AppendedAll(extents, a), b)
  {
    if b == [] {
      assert a + b == a;
    } else {
      AppendedAllConcat(extents, a, Front(b));
      assert Front(a + b) == a + Front(b);
    }
  }

  /** Appending the blocks of one run, in order, rebuilds that run. */
  lemma {:induction false} AppendRun(extents: seq<Extent>, e: Extent)
    requires e.numBlocks > 0
    requires e.startBlock + e.numBlocks < UINT64_MODULUS
    requires extents != [] ==> NextBlock(Last(extents)) != e.startBlock
    ensures AppendedAll(extents, BlocksOf(e)) == extents + [e]
    decreases e.numBlocks
  {
    var bs := BlocksOf(e);
    if e.numBlocks == 1 {
      assert bs == [e.startBlock];
      assert AppendedAll(extents, Front(bs)) == extents;
      assert e == Extent(e.startBlock, 1);
    } else {
      var shorter := e.(numBlocks := e.numBlocks - 1);
      assert Front(bs) == BlocksOf(shorter);
      AppendRun(extents, shorter);
      var es := extents + [shorter];
      assert NextBlock(Last(es)) == Last(bs);
      assert Front(es) == extents;
    }
  }

  /** A canonical list is the only one with its meaning: compressing its blocks gives it back. */
  lemma {:induction false} CompressIsInverse(extents: seq<Extent>)
    requires Canonical(extents) && RealBlocks(Expand(extents))
    ensures Compress(Expand(extents)) == extents
  {
    if extents != [] {
      var init, e := Front(extents), Last(extents);
      LastBlockBound(extents);
      forall i | 0 <= i < |Expand(init)|
        ensures Expand(init)[i] < SPARSE_HOLE
      {
        assert Expand(extents)[i] == Expand(init)[i];
      }
      assert Canonical(init);
      CompressIsInverse(init);
      AppendedAllConcat([], Expand(init), BlocksOf(e));
      AppendRun(init, e);
      assert init + [e] == extents;
    }
  }

  // ----- EdgeWeight

  function TotalBlocks(extents: seq<Extent>): nat {
    if extents == [] then 0 else TotalBlocks(Front(extents)) + Last(extents).numBlocks
  }

  lemma {:induction false} TotalIsExpandedLength(extents: seq<Extent>)
    ensures TotalBlocks(extents) == |Expand(extents)|
  {
    if extents != [] {
      TotalIsExpandedLength(Front(extents));
    }
  }

  /** The weight of an edge is the number of blocks its runs stand for, as a uint64. */
  method EdgeWeight(extents: seq<Extent>) returns (weight: nat)
    ensures weight == |Expand(extents)| % UINT64_MODULUS
  {
    hide Expand;
    weight := 0;
    ExpandNone();
    for i := 0 to |extents|
      invariant weight == |Expand(extents[..i])| % UINT64_MODULUS
    {
      ExpandOneMore(extents, i);
      SumModulo(|Expand(extents[..i])|, extents[i].numBlocks);
      weight := (weight + extents[i].numBlocks) % UINT64_MODULUS;
    }
    assert extents[..|extents|] == extents;
  }

  lemma ExpandNone()
    ensures |Expand([])| == 0
  {
  }

  lemma ExpandOneMore(extents: seq<Extent>, i: nat)
    requires i < |extents|
    ensures |Expand(extents[..i + 1])| == |Expand(extents[..i])| + extents[i].numBlocks
  {
    assert Front(extents[..i + 1]) == extents[..i];
  }

  lemma SumModulo(total: nat, more: nat)
    ensures (total % UINT64_MODULUS + more) % UINT64_MODULUS == (total + more) % UINT64_MODULUS
  {
    var q := total / UINT64_MODULUS;
    assert total == q * UINT64_MODULUS + total % UINT64_MODULUS;
  }

  // ----- ExtentsForFileFibmap

  datatype FibmapResult = Mapped(block: nat) | IoctlFailed

  function MappedBlocks(fibmap: seq<FibmapResult>): (blocks: seq<nat>)
    requires forall i | 0 <= i < |fibmap| :: fibmap[i].Mapped?
    ensures |blocks| == |fibmap|
  {
    seq(|fibmap|, i requires 0 <= i < |fibmap| => fibmap[i].block)
  }

  /** The FIBMAP loop adds to out exactly the compression of the mapped blocks, never merging
      with what out held.  If an ioctl fails it stops, and the run under construction is lost. */
  method ExtentsForFileFibmap(fibmap: seq<FibmapResult>, out: ExtentVector) returns (ok: bool)
    modifies out
    ensures ok <==> forall i | 0 <= i < |fibmap| :: fibmap[i].Mapped?
    ensures ok ==> out.items == old(out.items) + Compress(MappedBlocks(fibmap))
    ensures !ok ==>
      exists n | 0 <= n < |fibmap| && fibmap[n].IoctlFailed?
              && (forall i | 0 <= i < n :: fibmap[i].Mapped?) ::
        var runs := Compress(MappedBlocks(fibmap[..n]));
        out.items == old(out.items) + if n == 0 then [] else runs[..|runs| - 1]
  {
    var current := Extent(0, 0);
    ghost var before := out.items;
    for i := 0 to |fibmap|
      invariant forall j | 0 <= j < i :: fibmap[j].Mapped?
      invariant current.numBlocks == 0 <==> i == 0
      invariant i == 0 ==> out.items == before
      invariant i > 0 ==> LoopState(before, out.items, current, MappedBlocks(fibmap[..i]))
    {
      if fibmap[i].IoctlFailed? {
        ghost var runs := Compress(MappedBlocks(fibmap[..i]));
        assert out.items == before + if i == 0 then [] else runs[..|runs| - 1];
        return false;
      }
      var block := fibmap[i].block;
      ghost var seen := MappedBlocks(fibmap[..i]);
      assert MappedBlocks(fibmap[..i + 1]) == seen + [block];
      if current.numBlocks == 0 {
        current := Extent(block, 1);
        StartRun(before, block);
        assert seen == [];
        continue;
      }
      NextRun(before, out.items, current, seen, block);
      if NextBlock(current) == block {
        current := current.(numBlocks := current.numBlocks + 1);
        continue;
      }
      out.items := out.items + [current];
      current := Extent(block, 1);
    }
    assert fibmap[..|fibmap|] == fibmap;
    if current.numBlocks > 0 {
      out.items := out.items + [current];
    }
    return true;
  }

  /** The run under construction is the last run of the compression; the others are already out. */
  ghost predicate LoopState(before: seq<Extent>, items: seq<Extent>, current: Extent, seen: seq<nat>) {
    var runs := Compress(seen);
    runs != [] && Last(runs) == current && items == before + Front(runs)
  }

  lemma StartRun(before: seq<Extent>, block: nat)
    ensures LoopState(before, before, Extent(block, 1), [] + [block])
  {
    assert [] + [block] == [block];
    assert Front([block]) == [];
    assert AppendedAll([], []) == [];
    assert Compress([block]) == [Extent(block, 1)];
  }

  lemma NextRun(before: seq<Extent>, items: seq<Extent>, current: Extent, seen: seq<nat>, block: nat)
    requires LoopState(before, items, current, seen)
    ensures if NextBlock(current) == block
            then LoopState(before, items, current.(numBlocks := current.numBlocks + 1), seen + [block])
            else LoopState(before, items + [current], Extent(block, 1), seen + [block])
  {
    assert Front(seen + [block]) == seen;
    var runs := Compress(seen);
    assert Compress(seen + [block]) == Appended(runs, block);
    assert Front(runs) + [Last(runs)] == runs;
  }

  /** The two compressors agree on what they add to out unless out already ends where the
      blocks begin: only then would AppendBlockToExtents have merged into it. */
  lemma CompressorsAgree(before: seq<Extent>, blocks: seq<nat>)
    ensures AppendedAll(before, blocks) == before + Compress(blocks)
       <==> blocks == [] || before == [] || NextBlock(Last(before)) != blocks[0]
  {
    if blocks == [] {
      assert before + [] == before;
    } else if before == [] {
      assert [] + Compress(blocks) == Compress(blocks);
    } else if NextBlock(Last(before)) != blocks[0] {
      AppendKeepsPrefix(before, blocks);
    } else {
      AppendMerges(before, blocks);
    }
  }

  lemma {:induction false} AppendKeepsPrefix(before: seq<Extent>, blocks: seq<nat>)
    requires blocks != [] && before != [] && NextBlock(Last(before)) != blocks[0]
    ensures AppendedAll(before, blocks) == before + Compress(blocks)
    ensures Compress(blocks) != []
  {
    if |blocks| == 1 {
      assert Front(blocks) == [];
      assert AppendedAll(before, []) == before && AppendedAll([], []) == [];
      assert Compress(blocks) == [Extent(blocks[0], 1)];
    } else {
      hide Appended;
      AppendKeepsPrefix(before, Front(blocks));
      AppendUnderPrefix(before, Compress(Front(blocks)), Last(blocks));
    }
  }

  lemma AppendUnderPrefix(before: seq<Extent>, runs: seq<Extent>, block: nat)
    requires runs != []
    ensures Appended(before + runs, block) == before + Appended(runs, block)
    ensures Appended(runs, block) != []
  {
    assert Last(before + runs) == Last(runs);
    assert Front(before + runs) == before + Front(runs);
  }

  /** When the first block continues the last run, that run grows in place. */
  lemma {:induction false} AppendMerges(before: seq<Extent>, blocks: seq<nat>)
    requires blocks != [] && before != [] && NextBlock(Last(before)) == blocks[0]
    ensures |AppendedAll(before, blocks)| >= |before|
    ensures AppendedAll(before, blocks)[|before| - 1].numBlocks > Last(before).numBlocks
  {
    var runs := AppendedAll(before, Front(blocks));
    if |blocks| == 1 {
      assert runs == before;
      assert Last(blocks) == blocks[0];
    } else {
      AppendMerges(before, Front(blocks));
      AppendNeverShrinks(runs, Last(blocks), |before| - 1);
    }
  }

  lemma AppendNeverShrinks(extents: seq<Extent>, block: nat, k: nat)
    requires k < |extents|
    ensures |Appended(extents, block)| >= |extents|
    ensures Appended(extents, block)[k].numBlocks >= extents[k].numBlocks
  {
  }
}
