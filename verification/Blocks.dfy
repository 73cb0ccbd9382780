/** Tiling a file into fixed-size blocks, and laying blocks back over a file. */
module Blocks {
  import opened Bytes

  // ---- Tiling arithmetic ----------------------------------------------------------

  function BlockCount(size: nat, bs: nat): nat
    requires bs > 0
  {
    Quotient(size + bs - 1, bs)
  }

  /** The count as both peers compute it: a 64-bit sum, then a cast to 32 bits. */
  function BlockCount32(size: nat, bs: nat): nat
    requires bs > 0
  {
    U32(Quotient(U64(size + bs - 1), bs))
  }

  /** Sizes for which neither step of that computation wraps. */
  predicate Representable(size: nat, bs: nat) {
    bs > 0 && size + bs - 1 < TWO64 && size <= (TWO32 - 1) * bs
  }

  lemma CountIsExact(size: nat, bs: nat)
    requires Representable(size, bs)
    ensures BlockCount32(size, bs) == BlockCount(size, bs)
  {
    hide U32, U64;
    var n := BlockCount(size, bs);
    Truncation(size + bs - 1);
    Truncation(n);
    assert bs * n <= size + bs - 1;
    assert (TWO32 - 1) * bs == bs * TWO32 - bs;
    if n >= TWO32 {
      MulMono(bs, TWO32, n);
    }
  }

  lemma CountNeverOvershoots(size: nat, bs: nat)
    requires bs > 0
    ensures BlockCount32(size, bs) <= BlockCount(size, bs)
  {
    hide U32, U64, Quotient;
    var x := size + bs - 1;
    Truncation(x);
    QuotientMono(U64(x), x, bs);
    Truncation(Quotient(U64(x), bs));
  }

  /** Block `i` starts inside the file. */
  predicate HasBlock(size: nat, bs: nat, i: nat) {
    i * bs < size
  }

  /** A block exists exactly when it starts inside the file. */
  lemma BlockInRange(i: nat, size: nat, bs: nat)
    requires bs > 0
    ensures i < BlockCount(size, bs) <==> HasBlock(size, bs, i)
  {
    var n := BlockCount(size, bs);
    assert size + bs - 1 == bs * n + (size + bs - 1) % bs;
    if i < n {
      MulMono(bs, i + 1, n);
    } else {
      MulMono(bs, n, i);
    }
    assert bs * (i + 1) == i * bs + bs;
  }

  /** The computed count is exact if and only if the size is representable: block sizes are 32-bit numbers, and both the
      wrapping sum and the wrapping cast always lose blocks. */
  lemma CountIsExactIff(size: nat, bs: nat)
    requires 0 < bs < TWO32
    ensures BlockCount32(size, bs) == BlockCount(size, bs) <==> Representable(size, bs)
  {
    if Representable(size, bs) {
      CountIsExact(size, bs);
    } else if size + bs - 1 >= TWO64 {
      WrappedSumIsShort(size, bs);
    } else {
      BlockInRange(TWO32 - 1, size, bs);
    }
  }

  lemma WrappedSumIsShort(size: nat, bs: nat)
    requires 0 < bs < TWO32 && size + bs - 1 >= TWO64
    ensures BlockCount32(size, bs) < BlockCount(size, bs)
  {
    hide U32, U64, Quotient;
    var x := size + bs - 1;
    Truncation(x);
    Truncation(Quotient(U64(x), bs));
    WrapsDown(x);
    QuotientMono(U64(x), x - bs, bs);
    QuotientLess(x, bs);
  }

  lemma WrapsDown(x: nat)
    requires x >= TWO64
    ensures U64(x) <= x - TWO64
  {
    DivUnique(x, TWO64, x / TWO64, x % TWO64);
  }

  lemma QuotientLess(x: nat, bs: nat)
    requires 0 < bs <= x
    ensures Quotient(x - bs, bs) == Quotient(x, bs) - 1
  {
    DivUnique(x - bs, bs, x / bs - 1, x % bs);
  }

  /** Position `k` lies in block `i`. */
  predicate At(bs: nat, i: nat, k: nat) {
    i * bs <= k < i * bs + bs
  }

  /** Every position lies in exactly one block. */
  lemma BlockOfPosition(k: nat, bs: nat) returns (i: nat)
    requires bs > 0
    ensures At(bs, i, k)
  {
    i := k / bs;
  }

  lemma BlockUnique(bs: nat, i: nat, j: nat, k: nat)
    requires At(bs, i, k) && At(bs, j, k)
    ensures i == j
  {
    DivUnique(k, bs, i, k - i * bs);
    DivUnique(k, bs, j, k - j * bs);
  }

  function BlockLen(size: nat, bs: nat, i: nat): nat
    requires HasBlock(size, bs, i)
  {
    Min(bs, size - i * bs)
  }

  function Tile(f: seq<byte>, bs: nat, i: nat): (t: seq<byte>)
    requires HasBlock(|f|, bs, i)
    ensures |t| == BlockLen(|f|, bs, i)
  {
    f[i * bs..i * bs + BlockLen(|f|, bs, i)]
  }

  /** Only the last block can be short, and it is short exactly when the size is not a multiple of the block size. */
  lemma ShortBlock(size: nat, bs: nat, i: nat)
    requires bs > 0 && HasBlock(size, bs, i)
    ensures BlockLen(size, bs, i) < bs <==> i == BlockCount(size, bs) - 1 && size % bs != 0
  {
    BlockInRange(i, size, bs);
    BlockInRange(i + 1, size, bs);
    assert (i + 1) * bs == i * bs + bs;
    if i == BlockCount(size, bs) - 1 {
      var r := size - i * bs;
      if r == bs {
        DivUnique(size, bs, i + 1, 0);
      } else {
        DivUnique(size, bs, i, r);
      }
    }
  }

  // ---- Reading and writing at an offset ----------------------------------------------

  /** A positioned read of at most `size` octets. */
  function ReadBlock(f: seq<byte>, offset: nat, size: nat): seq<byte> {
    if offset > |f| then [] else f[offset..Min(offset + size, |f|)]
  }

  lemma ReadBlockIsTile(f: seq<byte>, bs: nat, i: nat)
    requires HasBlock(|f|, bs, i)
    ensures ReadBlock(f, i * bs, BlockLen(|f|, bs, i)) == Tile(f, bs, i)
  {
  }

  /** A positioned write; a gap before the offset reads as zeros, and writing nothing changes nothing. */
  function WriteAt(f: seq<byte>, offset: nat, data: seq<byte>): seq<byte> {
    if data == [] then f else
      var base := if |f| < offset then f + Zeros(offset - |f|) else f;
      base[..offset] + data + (if offset + |data| < |base| then base[offset + |data|..] else [])
  }

  lemma WriteAtIndex(f: seq<byte>, offset: nat, data: seq<byte>, k: nat)
    ensures var r := WriteAt(f, offset, data);
            && |r| == (if data == [] then |f| else Max(|f|, offset + |data|))
            && (k < |r| ==>
                 r[k] == if offset <= k < offset + |data| then data[k - offset] else if k < |f| then f[k] else 0)
  {
  }

  datatype Patch = Patch(offset: nat, data: seq<byte>)

  function WriteAll(f: seq<byte>, ps: seq<Patch>): seq<byte>
    decreases |ps|
  {
    if ps == [] then f else WriteAll(WriteAt(f, ps[0].offset, ps[0].data), ps[1..])
  }

  lemma {:induction false} WriteAllConcat(f: seq<byte>, ps: seq<Patch>, qs: seq<Patch>)
    ensures WriteAll(f, ps + qs) == WriteAll(WriteAll(f, ps), qs)
    decreases |ps|
  {
    if ps == [] {
      assert ps + qs == qs;
    } else {
      assert (ps + qs)[1..] == ps[1..] + qs;
      WriteAllConcat(WriteAt(f, ps[0].offset, ps[0].data), ps[1..], qs);
    }
  }

  predicate Covers(p: Patch, k: nat) {
    p.offset <= k < p.offset + |p.data|
  }

  ghost predicate Covered(ps: seq<Patch>, k: nat) {
    exists i :: 0 <= i < |ps| && Covers(ps[i], k)
  }

  /** The file reaches past position `k` once some patch does. */
  ghost predicate Reached(ps: seq<Patch>, k: nat) {
    exists i :: 0 <= i < |ps| && ps[i].data != [] && k < ps[i].offset + |ps[i].data|
  }

  /** The patch carries a piece of `target`. */
  predicate PieceOf(p: Patch, target: seq<byte>) {
    p.offset + |p.data| <= |target| && p.data == target[p.offset..p.offset + |p.data|]
  }

  ghost predicate PiecesOf(ps: seq<Patch>, target: seq<byte>) {
    forall i :: 0 <= i < |ps| ==> PieceOf(ps[i], target)
  }

  /** Writing pieces of one target in any order, with any overlap: covered positions hold the target,
      uncovered ones what was there before, and gaps are zero. */
  lemma {:induction false} WriteAllPieces(f: seq<byte>, ps: seq<Patch>, target: seq<byte>, k: nat)
    requires PiecesOf(ps, target)
    ensures var r := WriteAll(f, ps);
            && (k < |r| <==> k < |f| || Reached(ps, k))
            && (Covered(ps, k) ==> k < |target|)
            && (k < |r| ==> r[k] == if Covered(ps, k) then target[k] else if k < |f| then f[k] else 0)
    decreases |ps|
  {
    hide WriteAt;
    if ps != [] {
      WriteAtIndex(f, ps[0].offset, ps[0].data, k);
      CoveredHeadTail(ps, k);
      WriteAllPieces(WriteAt(f, ps[0].offset, ps[0].data), ps[1..], target, k);
    }
  }

  lemma CoveredHeadTail(ps: seq<Patch>, k: nat)
    requires ps != []
    ensures Covered(ps, k) <==> Covers(ps[0], k) || Covered(ps[1..], k)
    ensures Reached(ps, k) <==> (ps[0].data != [] && k < ps[0].offset + |ps[0].data|) || Reached(ps[1..], k)
  {
    if Covered(ps[1..], k) {
      var i :| 0 <= i < |ps[1..]| && Covers(ps[1..][i], k);
      assert Covers(ps[i + 1], k);
    }
    if Covered(ps, k) {
      var i :| 0 <= i < |ps| && Covers(ps[i], k);
      assert i == 0 || Covers(ps[1..][i - 1], k);
    }
    if Reached(ps[1..], k) {
      var i :| 0 <= i < |ps[1..]| && ps[1..][i].data != [] && k < ps[1..][i].offset + |ps[1..][i].data|;
      assert ps[i + 1] == ps[1..][i];
    }
    if Reached(ps, k) {
      var i :| 0 <= i < |ps| && ps[i].data != [] && k < ps[i].offset + |ps[i].data|;
      assert i == 0 || ps[1..][i - 1] == ps[i];
    }
  }

  /** Pieces never reach past their target. */
  lemma PiecesLength(f: seq<byte>, ps: seq<Patch>, target: seq<byte>)
    requires PiecesOf(ps, target) && |f| <= |target|
    ensures |f| <= |WriteAll(f, ps)| <= |target|
  {
    WriteAllPieces(f, ps, target, |target|);
    assert !Reached(ps, |target|);
    if f != [] {
      WriteAllPieces(f, ps, target, |f| - 1);
    }
  }

  // ---- Blocks as patches -----------------------------------------------------------

  ghost predicate InFile(order: seq<nat>, size: nat, bs: nat) {
    forall i :: i in order ==> HasBlock(size, bs, i)
  }

  function TilePatch(f: seq<byte>, bs: nat, i: nat): (p: Patch)
    requires HasBlock(|f|, bs, i)
    ensures PieceOf(p, f)
  {
    Patch(i * bs, Tile(f, bs, i))
  }

  /** The blocks of `f` with the given indices, in the given order. */
  ghost function Tiles(f: seq<byte>, bs: nat, order: seq<nat>): (ps: seq<Patch>)
    requires InFile(order, |f|, bs)
    ensures |ps| == |order|
    ensures forall j :: 0 <= j < |order| ==> HasBlock(|f|, bs, order[j]) && ps[j] == TilePatch(f, bs, order[j])
    ensures PiecesOf(ps, f)
  {
    if order == [] then [] else
      assert HasBlock(|f|, bs, order[0]);
      [TilePatch(f, bs, order[0])] + Tiles(f, bs, order[1..])
  }

  lemma TileCovers(f: seq<byte>, bs: nat, i: nat, j: nat, k: nat)
    requires k < |f| && HasBlock(|f|, bs, j) && At(bs, i, k)
    ensures Covers(TilePatch(f, bs, j), k) <==> i == j
  {
    if Covers(TilePatch(f, bs, j), k) {
      BlockUnique(bs, i, j, k);
    }
  }

  /** The position `k` of block `i` is covered by the tiles exactly when block `i` is among them. */
  lemma TilesCover(f: seq<byte>, bs: nat, order: seq<nat>, i: nat, k: nat)
    requires k < |f| && InFile(order, |f|, bs) && At(bs, i, k)
    ensures Covered(Tiles(f, bs, order), k) <==> i in order
  {
    hide TilePatch, At, HasBlock;
    var ps := Tiles(f, bs, order);
    if Covered(ps, k) {
      var j :| 0 <= j < |ps| && Covers(ps[j], k);
      TileCovers(f, bs, i, order[j], k);
    }
    if i in order {
      var j :| 0 <= j < |order| && order[j] == i;
      TileCovers(f, bs, i, i, k);
      assert Covers(ps[j], k);
    }
  }

  /** A position of the file lies in a block of the file. */
  lemma PositionHasBlock(f: seq<byte>, bs: nat, i: nat, k: nat)
    requires k < |f| && At(bs, i, k)
    ensures bs > 0 && HasBlock(|f|, bs, i) && i < BlockCount(|f|, bs)
    ensures i * bs <= k < i * bs + |Tile(f, bs, i)|
    ensures Tile(f, bs, i)[k - i * bs] == f[k]
  {
    BlockInRange(i, |f|, bs);
  }

  /** Split and merge: all tiles of `f`, written in any order over a file of zeros of the same size, restore `f`. */
  lemma MergeInAnyOrder(f: seq<byte>, bs: nat, order: seq<nat>)
    requires bs > 0 && multiset(order) == multiset(seq(BlockCount(|f|, bs), i => i))
    ensures InFile(order, |f|, bs)
    ensures WriteAll(Zeros(|f|), Tiles(f, bs, order)) == f
  {
    var n := BlockCount(|f|, bs);
    var all := seq(n, i => i);
    forall i ensures i in order <==> 0 <= i < n {
      assert i in order <==> i in multiset(order);
      assert i in all <==> i in multiset(all);
      if 0 <= i < n { assert all[i] == i; }
    }
    forall i | i in order ensures HasBlock(|f|, bs, i) { BlockInRange(i, |f|, bs); }
    MergeOfAll(f, bs, order);
  }

  lemma MergeOfAll(f: seq<byte>, bs: nat, order: seq<nat>)
    requires bs > 0 && InFile(order, |f|, bs)
    requires forall i :: 0 <= i < BlockCount(|f|, bs) ==> i in order
    ensures WriteAll(Zeros(|f|), Tiles(f, bs, order)) == f
  {
    hide WriteAll;
    var ps := Tiles(f, bs, order);
    var r := WriteAll(Zeros(|f|), ps);
    PiecesLength(Zeros(|f|), ps, f);
    forall k: nat | k < |f| ensures r[k] == f[k] {
      WriteAllPieces(Zeros(|f|), ps, f, k);
      var i := BlockOfPosition(k, bs);
      PositionHasBlock(f, bs, i, k);
      TilesCover(f, bs, order, i, k);
    }
  }
}
