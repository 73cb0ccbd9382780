/** Delta sync through the server: what the blocks a client sends leave in the store, and when it is published. */
module DeltaSession {
  import opened Bytes
  import opened Blocks
  import opened DeltaSync
  import opened Storage
  import opened Server
  import Adler32

  ghost function BlockInputs(p: Path, blocks: seq<Block>, env: Env): (ins: seq<Input>)
    ensures |ins| == |blocks|
    ensures forall j :: 0 <= j < |blocks| ==> ins[j] == Input(BlockData(p, blocks[j]), env)
  {
    seq(|blocks|, j requires 0 <= j < |blocks| => Input(BlockData(p, blocks[j]), env))
  }

  /** The store with the patches collected in the temp file of `p`. */
  ghost function Staged(files: Files, p: Path, ps: seq<Patch>): Files {
    if ps == [] then files else files[TmpPath(p) := WriteAll(OrEmpty(Content(files, TmpPath(p))), ps)]
  }

  ghost function Finalised(files: Files, p: Path, content: seq<byte>): Files {
    (files - {TmpPath(p)})[p := content]
  }

  lemma StagedStep(files: Files, p: Path, ps: seq<Patch>, q: Patch)
    ensures WriteBlock(Staged(files, p, ps), p, q.offset, q.data) == Staged(files, p, ps + [q])
  {
    hide WriteAt;
    var base := OrEmpty(Content(files, TmpPath(p)));
    WriteAllConcat(base, ps, [q]);
    assert WriteAll(WriteAll(base, ps), [q]) == WriteAt(WriteAll(base, ps), q.offset, q.data);
    assert ps == [] ==> ps + [q] == [q];
  }

  lemma ReceiveTile(H: Hash, s: State, p: Path, C: seq<byte>, bs: nat, i: nat, env: Env)
    requires HasBlock(|C|, bs, i) && s.upload.None? && Reliable(env)
    ensures var t := TilePatch(C, bs, i);
            var written := WriteBlock(s.files, p, t.offset, t.data);
            Receive(H, s, Input(BlockData(p, BlockOf(H, C, bs, i)), env)) ==
              if |t.data| < s.blockSize
              then Out(s.(files := Publish(written, p)), [Complete(p, OK, H(written[TmpPath(p)]))])
              else Out(s.(files := written), [])
  {
    TmpPathEnds(p);
  }

  lemma TilesSnoc(f: seq<byte>, bs: nat, order: seq<nat>, i: nat)
    requires InFile(order, |f|, bs) && HasBlock(|f|, bs, i)
    ensures InFile(order + [i], |f|, bs)
    ensures Tiles(f, bs, order + [i]) == Tiles(f, bs, order) + [TilePatch(f, bs, i)]
  {
    hide HasBlock, TilePatch;
  }

  /** Blocks of at least the server's size are written one by one and answered by silence. */
  lemma {:induction false} FullBlocks(H: Hash, s: State, p: Path, C: seq<byte>, bs: nat, order: seq<nat>, env: Env)
    requires InFile(order, |C|, bs) && s.upload.None? && Reliable(env)
    requires forall i :: i in order ==> HasBlock(|C|, bs, i) && BlockLen(|C|, bs, i) >= s.blockSize
    ensures Serve(H, s, BlockInputs(p, BlocksFor(H, C, bs, order), env))
         == Out(s.(files := Staged(s.files, p, Tiles(C, bs, order))), [])
    decreases |order|
  {
    if order == [] {
      assert s.(files := s.files) == s;
    } else {
      var init, i := order[..|order| - 1], order[|order| - 1];
      assert i in order && order == init + [i];
      hide HasBlock, BlockLen, Serve, Receive, Staged, BlockOf, Reliable, BlocksFor, BlockInputs, Tiles;
      FullBlocks(H, s, p, C, bs, init, env);
      OneMoreFull(H, s, p, C, bs, init, i, env);
    }
  }

  lemma OneMoreFull(H: Hash, s: State, p: Path, C: seq<byte>, bs: nat, init: seq<nat>, i: nat, env: Env)
    requires s.upload.None? && Reliable(env)
    requires InFile(init, |C|, bs) && HasBlock(|C|, bs, i) && BlockLen(|C|, bs, i) >= s.blockSize
    requires Serve(H, s, BlockInputs(p, BlocksFor(H, C, bs, init), env))
          == Out(s.(files := Staged(s.files, p, Tiles(C, bs, init))), [])
    ensures InFile(init + [i], |C|, bs)
    ensures Serve(H, s, BlockInputs(p, BlocksFor(H, C, bs, init + [i]), env))
         == Out(s.(files := Staged(s.files, p, Tiles(C, bs, init + [i]))), [])
  {
    hide HasBlock, BlockLen, Serve, Receive, Staged, BlockOf, Reliable, BlocksFor, BlockInputs, Tiles, InFile;
    BlocksSnoc(H, s, p, C, bs, init, i, env);
    FullBlock(H, s, p, C, bs, init, i, env);
  }

  lemma FullBlock(H: Hash, s: State, p: Path, C: seq<byte>, bs: nat, init: seq<nat>, i: nat, env: Env)
    requires s.upload.None? && Reliable(env)
    requires InFile(init, |C|, bs) && HasBlock(|C|, bs, i) && BlockLen(|C|, bs, i) >= s.blockSize
    ensures InFile(init + [i], |C|, bs)
    ensures Receive(H, s.(files := Staged(s.files, p, Tiles(C, bs, init))), Input(BlockData(p, BlockOf(H, C, bs, i)), env))
         == Out(s.(files := Staged(s.files, p, Tiles(C, bs, init + [i]))), [])
  {
    hide Receive, Staged, WriteBlock, BlockOf, WriteAll, Publish;
    ReceiveTile(H, s.(files := Staged(s.files, p, Tiles(C, bs, init))), p, C, bs, i, env);
    StagedStep(s.files, p, Tiles(C, bs, init), TilePatch(C, bs, i));
    TilesSnoc(C, bs, init, i);
  }

  lemma BlocksSnoc(H: Hash, s: State, p: Path, C: seq<byte>, bs: nat, init: seq<nat>, i: nat, env: Env)
    requires InFile(init, |C|, bs) && HasBlock(|C|, bs, i)
    ensures InFile(init + [i], |C|, bs)
    ensures var a := Serve(H, s, BlockInputs(p, BlocksFor(H, C, bs, init), env));
            var b := Receive(H, a.state, Input(BlockData(p, BlockOf(H, C, bs, i)), env));
            Serve(H, s, BlockInputs(p, BlocksFor(H, C, bs, init + [i]), env)) == Out(b.state, a.replies + b.replies)
  {
    hide HasBlock, BlockOf, Receive;
    BlocksForSnoc(H, C, bs, init, i);
    var xs, x := BlockInputs(p, BlocksFor(H, C, bs, init), env), Input(BlockData(p, BlockOf(H, C, bs, i)), env);
    assert BlockInputs(p, BlocksFor(H, C, bs, init + [i]), env) == xs + [x];
    ServeConcat(H, s, xs, [x]);
    ServeOne(H, Serve(H, s, xs).state, x);
  }

  /** The last block sent is shorter than `limit`. */
  predicate EndsShort(size: nat, bs: nat, limit: nat, order: seq<nat>) {
    order != [] && order[|order| - 1] * bs < size < order[|order| - 1] * bs + limit
  }

  /** With agreed block sizes: the client's size is no multiple of the block size, and its last block was sent. */
  lemma EndsShortIff(size: nat, bs: nat, order: seq<nat>)
    requires bs > 0 && InFile(order, size, bs)
    ensures EndsShort(size, bs, bs, order) <==>
              order != [] && size % bs != 0 && order[|order| - 1] == BlockCount(size, bs) - 1
  {
    if order != [] {
      var last := order[|order| - 1];
      assert HasBlock(size, bs, last);
      ShortBlock(size, bs, last);
    }
  }

  /** No block but the last one sent can be shorter than a limit up to the block size. */
  lemma OnlyLastIsShort(size: nat, bs: nat, limit: nat, order: seq<nat>, j: nat)
    requires limit <= bs && StrictlyIncreasing(order) && InFile(order, size, bs) && j < |order|
    ensures HasBlock(size, bs, order[j])
    ensures BlockLen(size, bs, order[j]) < limit <==> EndsShort(size, bs, limit, order) && j == |order| - 1
  {
    var last := order[|order| - 1];
    assert HasBlock(size, bs, order[j]) && HasBlock(size, bs, last);
    if j < |order| - 1 {
      MulMono(bs, order[j] + 1, last);
      assert bs * (order[j] + 1) == order[j] * bs + bs;
    }
  }

  lemma BlocksOfPrefixFull(size: nat, bs: nat, limit: nat, order: seq<nat>, n: nat)
    requires limit <= bs && StrictlyIncreasing(order) && InFile(order, size, bs) && n <= |order|
    requires n < |order| || !EndsShort(size, bs, limit, order)
    ensures InFile(order[..n], size, bs)
    ensures forall i :: i in order[..n] ==> HasBlock(size, bs, i) && BlockLen(size, bs, i) >= limit
  {
    forall i | i in order[..n] ensures HasBlock(size, bs, i) && BlockLen(size, bs, i) >= limit {
      var j :| 0 <= j < n && order[j] == i;
      OnlyLastIsShort(size, bs, limit, order, j);
    }
  }

  /** Finalisation, for a client whose blocks are at least as large as the size the server finalises by. The server renames
      at most once, after every block has been written, and exactly when the last block sent is shorter than that size.
      What it publishes is the sent blocks laid over whatever the temp file held before. Otherwise there is no reply and
      nothing is published. */
  lemma Finalisation(H: Hash, s: State, p: Path, C: seq<byte>, bs: nat, order: seq<nat>, env: Env)
    requires s.upload.None? && s.blockSize <= bs && Reliable(env)
    requires StrictlyIncreasing(order) && InFile(order, |C|, bs)
    ensures var content := WriteAll(OrEmpty(Content(s.files, TmpPath(p))), Tiles(C, bs, order));
            Serve(H, s, BlockInputs(p, BlocksFor(H, C, bs, order), env)) ==
              if EndsShort(|C|, bs, s.blockSize, order)
              then Out(s.(files := Finalised(s.files, p, content)), [Complete(p, OK, H(content))])
              else Out(s.(files := Staged(s.files, p, Tiles(C, bs, order))), [])
  {
    if EndsShort(|C|, bs, s.blockSize, order) {
      FinalisedCase(H, s, p, C, bs, order, env);
    } else {
      StagedCase(H, s, p, C, bs, order, env);
    }
    hide Serve, Staged, Finalised, WriteAll, EndsShort;
  }

  lemma StagedCase(H: Hash, s: State, p: Path, C: seq<byte>, bs: nat, order: seq<nat>, env: Env)
    requires s.upload.None? && s.blockSize <= bs && Reliable(env)
    requires StrictlyIncreasing(order) && InFile(order, |C|, bs) && !EndsShort(|C|, bs, s.blockSize, order)
    ensures Serve(H, s, BlockInputs(p, BlocksFor(H, C, bs, order), env))
         == Out(s.(files := Staged(s.files, p, Tiles(C, bs, order))), [])
  {
    hide Serve, Staged, EndsShort, BlockLen;
    BlocksOfPrefixFull(|C|, bs, s.blockSize, order, |order|);
    assert order[..|order|] == order;
    FullBlocks(H, s, p, C, bs, order, env);
  }

  lemma FinalisedCase(H: Hash, s: State, p: Path, C: seq<byte>, bs: nat, order: seq<nat>, env: Env)
    requires s.upload.None? && s.blockSize <= bs && Reliable(env)
    requires StrictlyIncreasing(order) && InFile(order, |C|, bs) && EndsShort(|C|, bs, s.blockSize, order)
    ensures var content := WriteAll(OrEmpty(Content(s.files, TmpPath(p))), Tiles(C, bs, order));
            Serve(H, s, BlockInputs(p, BlocksFor(H, C, bs, order), env))
            == Out(s.(files := Finalised(s.files, p, content)), [Complete(p, OK, H(content))])
  {
    hide Serve, Finalised, EndsShort, WriteAll, StrictlyIncreasing, BlockLen, HasBlock, Reliable;
    var init, i := SplitLast(|C|, bs, s.blockSize, order);
    ThenLast(H, s, p, C, bs, init, i, env);
  }

  lemma SplitLast(size: nat, bs: nat, limit: nat, order: seq<nat>) returns (init: seq<nat>, i: nat)
    requires limit <= bs && StrictlyIncreasing(order) && InFile(order, size, bs) && EndsShort(size, bs, limit, order)
    ensures order == init + [i]
    ensures InFile(init, size, bs) && forall j :: j in init ==> HasBlock(size, bs, j) && BlockLen(size, bs, j) >= limit
    ensures HasBlock(size, bs, i) && BlockLen(size, bs, i) < limit
  {
    init, i := order[..|order| - 1], order[|order| - 1];
    OnlyLastIsShort(size, bs, limit, order, |order| - 1);
    BlocksOfPrefixFull(size, bs, limit, order, |order| - 1);
  }

  lemma ThenLast(H: Hash, s: State, p: Path, C: seq<byte>, bs: nat, init: seq<nat>, i: nat, env: Env)
    requires s.upload.None? && Reliable(env)
    requires InFile(init, |C|, bs) && forall j :: j in init ==> HasBlock(|C|, bs, j) && BlockLen(|C|, bs, j) >= s.blockSize
    requires HasBlock(|C|, bs, i) && BlockLen(|C|, bs, i) < s.blockSize
    ensures InFile(init + [i], |C|, bs)
    ensures var content := WriteAll(OrEmpty(Content(s.files, TmpPath(p))), Tiles(C, bs, init + [i]));
            Serve(H, s, BlockInputs(p, BlocksFor(H, C, bs, init + [i]), env))
            == Out(s.(files := Finalised(s.files, p, content)), [Complete(p, OK, H(content))])
  {
    FullBlocks(H, s, p, C, bs, init, env);
    BlocksSnoc(H, s, p, C, bs, init, i, env);
    LastBlock(H, s, p, C, bs, init, i, env);
    hide Serve, Staged, Finalised, Receive, WriteAll, HasBlock, BlockOf, BlockLen;
  }

  lemma LastBlock(H: Hash, s: State, p: Path, C: seq<byte>, bs: nat, init: seq<nat>, i: nat, env: Env)
    requires s.upload.None? && Reliable(env)
    requires InFile(init, |C|, bs) && HasBlock(|C|, bs, i) && BlockLen(|C|, bs, i) < s.blockSize
    ensures InFile(init + [i], |C|, bs)
    ensures var content := WriteAll(OrEmpty(Content(s.files, TmpPath(p))), Tiles(C, bs, init + [i]));
            Receive(H, s.(files := Staged(s.files, p, Tiles(C, bs, init))), Input(BlockData(p, BlockOf(H, C, bs, i)), env))
            == Out(s.(files := Finalised(s.files, p, content)), [Complete(p, OK, H(content))])
  {
    hide Receive, Staged, WriteBlock, BlockOf, WriteAll, Publish, Finalised;
    ReceiveTile(H, s.(files := Staged(s.files, p, Tiles(C, bs, init))), p, C, bs, i, env);
    StagedStep(s.files, p, Tiles(C, bs, init), TilePatch(C, bs, i));
    TilesSnoc(C, bs, init, i);
    PublishStaged(s.files, p, Tiles(C, bs, init + [i]));
  }

  lemma PublishStaged(files: Files, p: Path, ps: seq<Patch>)
    requires ps != []
    ensures var content := WriteAll(OrEmpty(Content(files, TmpPath(p))), ps);
            && TmpPath(p) in Staged(files, p, ps) && Staged(files, p, ps)[TmpPath(p)] == content
            && Publish(Staged(files, p, ps), p) == Finalised(files, p, content)
  {
    hide WriteAll;
  }

  // ---- What gets published --------------------------------------------------------------------

  predicate AllZero(t: seq<byte>) {
    forall k :: 0 <= k < |t| ==> t[k] == 0
  }

  /** Every block of the client's file that was not sent consists of zeros. */
  ghost predicate UnsentAreZero(C: seq<byte>, bs: nat, order: seq<nat>) {
    forall i: nat :: HasBlock(|C|, bs, i) && i !in order ==> AllZero(Tile(C, bs, i))
  }

  /** What the temp file held shows wherever no block was sent, and is no longer than the client's file. */
  ghost predicate RestFits(T: seq<byte>, C: seq<byte>, bs: nat, order: seq<nat>) {
    |T| <= |C| && forall i: nat, k: nat :: k < |C| && At(bs, i, k) && i !in order ==> OrZero(T, k) == C[k]
  }

  function OrZero(T: seq<byte>, k: nat): byte {
    if k < |T| then T[k] else 0
  }

  /** The content to be published: the sent blocks over what the temp file held, with zeros where it was too short. */
  lemma Overlaid(T: seq<byte>, C: seq<byte>, bs: nat, limit: nat, order: seq<nat>, i: nat, k: nat)
    requires limit <= bs && InFile(order, |C|, bs) && EndsShort(|C|, bs, limit, order) && At(bs, i, k)
    ensures var r := WriteAll(T, Tiles(C, bs, order));
            && |r| == Max(|T|, |C|)
            && (k < |r| ==> r[k] == if i in order && k < |C| then C[k] else OrZero(T, k))
  {
    hide WriteAll, At;
    var ps := Tiles(C, bs, order);
    LastPieceReaches(C, bs, limit, order);
    OverlaidLength(T, ps, C);
    WriteAllPieces(T, ps, C, k);
    if k < |C| {
      TilesCover(C, bs, order, i, k);
    }
  }

  lemma OverlaidLength(T: seq<byte>, ps: seq<Patch>, C: seq<byte>)
    requires PiecesOf(ps, C) && C != [] && Reached(ps, |C| - 1)
    ensures |WriteAll(T, ps)| == Max(|T|, |C|)
  {
    hide WriteAll;
    var n := Max(|T|, |C|);
    WriteAllPieces(T, ps, C, n);
    WriteAllPieces(T, ps, C, n - 1);
    assert !Reached(ps, n);
  }

  lemma LastPieceReaches(C: seq<byte>, bs: nat, limit: nat, order: seq<nat>)
    requires limit <= bs && InFile(order, |C|, bs) && EndsShort(|C|, bs, limit, order)
    ensures C != [] && Reached(Tiles(C, bs, order), |C| - 1)
  {
    var n := |order| - 1;
    var i := order[n];
    assert HasBlock(|C|, bs, i);
    var p := Tiles(C, bs, order)[n];
    assert p == TilePatch(C, bs, i) && p.data != [] && |C| - 1 < p.offset + |p.data|;
  }

  /** The published content is the client's file exactly when what the temp file held fits everywhere no block was sent. */
  lemma PublishedEqualsClientIff(T: seq<byte>, C: seq<byte>, bs: nat, limit: nat, order: seq<nat>)
    requires 0 < limit <= bs && InFile(order, |C|, bs) && EndsShort(|C|, bs, limit, order)
    ensures WriteAll(T, Tiles(C, bs, order)) == C <==> RestFits(T, C, bs, order)
  {
    hide WriteAll, At, EndsShort, InFile, Tiles, OrZero, RestFits;
    var r := WriteAll(T, Tiles(C, bs, order));
    forall i: nat, k: nat | At(bs, i, k)
      ensures |r| == Max(|T|, |C|) && (k < |r| ==> r[k] == if i in order && k < |C| then C[k] else OrZero(T, k))
    {
      Overlaid(T, C, bs, limit, order, i, k);
    }
    OverlaidEqualsIff(r, T, C, bs, order);
  }

  lemma OverlaidEqualsIff(r: seq<byte>, T: seq<byte>, C: seq<byte>, bs: nat, order: seq<nat>)
    requires bs > 0
    requires forall i: nat, k: nat :: At(bs, i, k) ==>
               |r| == Max(|T|, |C|) && (k < |r| ==> r[k] == if i in order && k < |C| then C[k] else OrZero(T, k))
    ensures r == C <==> RestFits(T, C, bs, order)
  {
    hide At, OrZero;
    var i0 := BlockOfPosition(0, bs);
    if RestFits(T, C, bs, order) {
      forall k: nat | k < |C| ensures r[k] == C[k] {
        var i := BlockOfPosition(k, bs);
      }
    }
  }

  /** Without a temp file from before: every block that was not sent has to be all zeros. */
  lemma NothingHeld(C: seq<byte>, bs: nat, order: seq<nat>)
    requires bs > 0
    ensures RestFits([], C, bs, order) <==> UnsentAreZero(C, bs, order)
  {
    if RestFits([], C, bs, order) {
      forall i: nat | HasBlock(|C|, bs, i) && i !in order ensures AllZero(Tile(C, bs, i)) {
        var t := Tile(C, bs, i);
        forall j | 0 <= j < |t| ensures t[j] == 0 {
          var k := TileIndex(C, bs, i, j);
        }
      }
    }
    if UnsentAreZero(C, bs, order) {
      forall i: nat, k: nat | k < |C| && At(bs, i, k) && i !in order ensures OrZero([], k) == C[k] {
        PositionHasBlock(C, bs, i, k);
        assert AllZero(Tile(C, bs, i));
      }
    }
  }

  lemma TileIndex(C: seq<byte>, bs: nat, i: nat, j: nat) returns (k: nat)
    requires HasBlock(|C|, bs, i) && j < |Tile(C, bs, i)|
    ensures k < |C| && At(bs, i, k) && C[k] == Tile(C, bs, i)[j]
  {
    k := i * bs + j;
  }

  // ---- A whole sync -------------------------------------------------------------------------------

  /** A sync of client file `C` onto a stored file: signatures, request, blocks. */
  ghost function Sync(H: Hash, s: State, p: Path, C: seq<byte>, bs: BlockSize, env: Env): Out {
    var o := Receive(H, s, Input(SignatureRequest(p, |C|, bs, AllSignatures(H, C, bs)), env));
    if |o.replies| == 1 && o.replies[0].BlockRequest? then
      var b := Serve(H, o.state, BlockInputs(p, Sent(H, C, bs, o.replies[0].indices), env));
      Out(b.state, o.replies + b.replies)
    else o
  }

  /** The blocks a sync sends when the server stores `S`. */
  ghost function SentOrder(H: Hash, C: seq<byte>, S: seq<byte>, bs: nat): seq<nat>
    requires bs > 0
  {
    Kept(RequestFor(H, C, S, bs), |C|, bs)
  }

  lemma SyncUnfolded(H: Hash, s: State, p: Path, C: seq<byte>, bs: BlockSize, env: Env)
    requires s.upload.None? && p in s.files
    ensures var req := RequestFor(H, C, s.files[p], bs);
            var b := Serve(H, s, BlockInputs(p, Sent(H, C, bs, req), env));
            Sync(H, s, p, C, bs, env) == Out(b.state, [BlockRequest(p, req)] + b.replies)
  {
    hide Serve, RequestList, AllSignatures;
  }

  /** What the temp file of `p` holds, nothing if there is none. */
  function Held(files: Files, p: Path): seq<byte> {
    OrEmpty(Content(files, TmpPath(p)))
  }

  /** The end-to-end law: with agreed block sizes, the server's copy after a sync is the client's file if and only if either
      the sync was finalised and what the temp file held before fits where nothing was sent, or it was not finalised and
      the copy was already right. The client is told of completion exactly when it was finalised, and otherwise the sent
      blocks stay behind in the temp file. */
  lemma SyncOutcome(H: Hash, s: State, p: Path, C: seq<byte>, bs: BlockSize, env: Env)
    requires s.upload.None? && s.blockSize == bs && Reliable(env) && p in s.files
    ensures var S, T := s.files[p], Held(s.files, p);
            var order := SentOrder(H, C, S, bs);
            var final := EndsShort(|C|, bs, bs, order);
            var o := Sync(H, s, p, C, bs, env);
            && InFile(order, |C|, bs)
            && p in o.state.files
            && (o.state.files[p] == C <==> if final then RestFits(T, C, bs, order) else S == C)
            && o.replies == [BlockRequest(p, RequestFor(H, C, S, bs))]
                 + (if final then [Complete(p, OK, H(o.state.files[p]))] else [])
            && (!final ==> o.state.files[p] == S && Held(o.state.files, p) == WriteAll(T, Tiles(C, bs, order)))
            && o.state == s.(files := o.state.files)
  {
    hide Sync, WriteAll, RestFits, EndsShort, SentOrder, RequestFor, Reliable, Finalised, Staged, Held;
    var S, T := s.files[p], Held(s.files, p);
    var order := SentOrder(H, C, S, bs);
    assert bs > 0;
    SyncResult(H, s, p, C, bs, env);
    PublishedAt(s.files, p, WriteAll(T, Tiles(C, bs, order)), Tiles(C, bs, order));
    if EndsShort(|C|, bs, bs, order) {
      PublishedEqualsClientIff(T, C, bs, bs, order);
    }
  }

  lemma PublishedAt(files: Files, p: Path, content: seq<byte>, ps: seq<Patch>)
    ensures p in Finalised(files, p, content) && Finalised(files, p, content)[p] == content
    ensures p in files ==> p in Staged(files, p, ps) && Staged(files, p, ps)[p] == files[p]
    ensures Held(Staged(files, p, ps), p) == WriteAll(Held(files, p), ps)
  {
    TmpPathEnds(p);
  }

  lemma SyncResult(H: Hash, s: State, p: Path, C: seq<byte>, bs: BlockSize, env: Env)
    requires s.upload.None? && s.blockSize == bs && Reliable(env) && p in s.files
    ensures var S := s.files[p];
            var req := RequestFor(H, C, S, bs);
            var order := SentOrder(H, C, S, bs);
            && InFile(order, |C|, bs)
            && var content := WriteAll(Held(s.files, p), Tiles(C, bs, order));
               Sync(H, s, p, C, bs, env) ==
                 if EndsShort(|C|, bs, bs, order)
                 then Out(s.(files := Finalised(s.files, p, content)), [BlockRequest(p, req), Complete(p, OK, H(content))])
                 else Out(s.(files := Staged(s.files, p, Tiles(C, bs, order))), [BlockRequest(p, req)])
  {
    hide Sync, Serve, Finalised, Staged, WriteAll, EndsShort, RequestFor, Reliable, Kept;
    var S := s.files[p];
    var req := RequestFor(H, C, S, bs);
    SyncUnfolded(H, s, p, C, bs, env);
    RequestIncreases(H, C, S, bs);
    KeptFacts(req, |C|, bs);
    Finalisation(H, s, p, C, bs, SentOrder(H, C, S, bs), env);
  }

  lemma RequestIncreases(H: Hash, C: seq<byte>, S: seq<byte>, bs: nat)
    requires bs > 0
    ensures StrictlyIncreasing(RequestFor(H, C, S, bs))
  {
    hide WantedBelow, AllSignatures, StrictlyIncreasing;
    WantedBelowFacts(H, Stable(S), bs, AllSignatures(H, C, bs), LastIndex(Stable(S), |C|, bs));
  }

  /** A file that is synced once without being finalised and then again, in another version, with finalisation: the second
      version arrives exactly when, wherever the second sync sent nothing, it agrees with what the first one sent there,
      or with zero if that sent nothing either; and the first one must not have reached further. */
  lemma TwoSyncs(H: Hash, s: State, p: Path, C1: seq<byte>, C2: seq<byte>, bs: BlockSize, env: Env)
    requires s.upload.None? && s.blockSize == bs && Reliable(env) && p in s.files && TmpPath(p) !in s.files
    ensures var S := s.files[p];
            var order1, order2 := SentOrder(H, C1, S, bs), SentOrder(H, C2, S, bs);
            var o1 := Sync(H, s, p, C1, bs, env);
            var o2 := Sync(H, o1.state, p, C2, bs, env);
            && InFile(order1, |C1|, bs)
            && var T := WriteAll([], Tiles(C1, bs, order1));
               !EndsShort(|C1|, bs, bs, order1) && EndsShort(|C2|, bs, bs, order2) ==>
                 && p in o2.state.files
                 && (o2.state.files[p] == C2 <==>
                       && |T| <= |C2|
                       && forall i: nat, k: nat :: k < |C2| && At(bs, i, k) && i !in order2 ==>
                            C2[k] == if i in order1 && k < |C1| then C1[k] else 0)
  {
    hide Sync, EndsShort, SentOrder, WriteAll, Reliable;
    var S := s.files[p];
    var order1, order2 := SentOrder(H, C1, S, bs), SentOrder(H, C2, S, bs);
    SyncOutcome(H, s, p, C1, bs, env);
    if !EndsShort(|C1|, bs, bs, order1) && EndsShort(|C2|, bs, bs, order2) {
      var o1 := Sync(H, s, p, C1, bs, env);
      SyncOutcome(H, o1.state, p, C2, bs, env);
      var T := WriteAll([], Tiles(C1, bs, order1));
      hide Held, At;
      HeldNothing(s.files, p);
      forall i: nat, k: nat | k < |C2| && At(bs, i, k) ensures OrZero(T, k) == if i in order1 && k < |C1| then C1[k] else 0 {
        StagedAt(C1, bs, order1, i, k);
      }
    }
  }

  lemma HeldNothing(files: Files, p: Path)
    requires TmpPath(p) !in files
    ensures Held(files, p) == []
  {
  }

  /** Sent blocks that were not finalised, read back position by position. */
  lemma StagedAt(C: seq<byte>, bs: nat, order: seq<nat>, i: nat, k: nat)
    requires InFile(order, |C|, bs) && At(bs, i, k)
    ensures OrZero(WriteAll([], Tiles(C, bs, order)), k) == if i in order && k < |C| then C[k] else 0
  {
    hide WriteAll, At;
    var ps := Tiles(C, bs, order);
    WriteAllPieces([], ps, C, k);
    if k < |C| {
      TilesCover(C, bs, order, i, k);
      if Covered(ps, k) {
        CoveredIsReached(ps, k);
      }
    }
  }

  lemma CoveredIsReached(ps: seq<Patch>, k: nat)
    requires Covered(ps, k)
    ensures Reached(ps, k)
  {
    var j :| 0 <= j < |ps| && Covers(ps[j], k);
    assert ps[j].data != [];
  }

  // ---- The failing case, concretely -----------------------------------------------------------------

  function Ones(n: nat, tail: byte): (f: seq<byte>)
    ensures |f| == n + 1
  {
    seq(n, _ => 1) + [tail]
  }

  /** Two versions of a file that share their first block and differ in a short last one. The sync sends only the last
      block, reports success, and what it publishes is not the client's file: whatever the hash and the block size. */
  lemma WrongFilePublished(H: Hash, s: State, p: Path, bs: BlockSize, env: Env)
    requires 1 < bs < TWO32 && s.upload.None? && s.blockSize == bs && Reliable(env)
    requires p in s.files && s.files[p] == Ones(bs, 3) && TmpPath(p) !in s.files
    ensures var C := Ones(bs, 2);
            var o := Sync(H, s, p, C, bs, env);
            && p in o.state.files && o.state.files[p] != C
            && |o.replies| == 2 && o.replies[1] == Complete(p, OK, H(o.state.files[p]))
  {
    var C, S := Ones(bs, 2), Ones(bs, 3);
    var order := SentOrder(H, C, S, bs);
    OnlyLastSent(H, bs);
    SyncOutcome(H, s, p, C, bs, env);
    HeldNothing(s.files, p);
    NothingHeld(C, bs, order);
    assert 0 * bs == 0;
    assert !AllZero(Tile(C, bs, 0)) by { assert Tile(C, bs, 0)[0] == 1; }
    hide Sync;
  }

  lemma OnlyLastSent(H: Hash, bs: nat)
    requires 1 < bs < TWO32
    ensures var order := SentOrder(H, Ones(bs, 2), Ones(bs, 3), bs);
            0 !in order && EndsShort(bs + 1, bs, bs, order)
  {
    hide RequestFor, Kept, Ones, HasBlock, EndsShort;
    var C, S := Ones(bs, 2), Ones(bs, 3);
    OnesRequested(H, bs);
    KeptFacts(RequestFor(H, C, S, bs), |C|, bs);
    EndsAtOne(bs, SentOrder(H, C, S, bs));
  }

  lemma EndsAtOne(bs: nat, order: seq<nat>)
    requires 1 < bs && InFile(order, bs + 1, bs) && 0 !in order && 1 in order
    ensures EndsShort(bs + 1, bs, bs, order)
  {
    hide HasBlock;
    var last := order[|order| - 1];
    assert last in order;
    TwoBlocks(bs, last);
  }

  lemma OnesRequested(H: Hash, bs: nat)
    requires 1 < bs < TWO32
    ensures var order := SentOrder(H, Ones(bs, 2), Ones(bs, 3), bs); 0 !in order && 1 in order
  {
    OnesTiles(bs, 2);
    OnesTiles(bs, 3);
    ChecksumsDiffer();
    hide RequestFor, Kept, Tile, Ones, Adler32.Checksum, HasBlock, Representable;
    RequestedIff(H, Ones(bs, 2), Ones(bs, 3), bs, 0);
    RequestedIff(H, Ones(bs, 2), Ones(bs, 3), bs, 1);
  }

  lemma OnesTiles(bs: nat, tail: byte)
    requires 1 < bs < TWO32
    ensures Representable(bs + 1, bs) && HasBlock(bs + 1, bs, 0) && HasBlock(bs + 1, bs, 1)
    ensures Tile(Ones(bs, tail), bs, 0) == seq(bs, _ => 1) && Tile(Ones(bs, tail), bs, 1) == [tail]
  {
    MulMono(bs, 2, TWO32 - 1);
    assert 0 * bs == 0 && 1 * bs == bs;
  }

  lemma TwoBlocks(bs: nat, i: nat)
    requires 1 < bs && HasBlock(bs + 1, bs, i)
    ensures i == 0 || (i == 1 && i * bs < bs + 1 < i * bs + bs)
  {
    if i >= 2 {
      MulMono(bs, 2, i);
    }
  }

  lemma ChecksumsDiffer()
    ensures Adler32.Checksum([2]) != Adler32.Checksum([3])
  {
    Adler32.SumsOne(2);
    Adler32.SumsOne(3);
  }

  /** With nothing stored under the path every block is asked for. A file whose size is a multiple of the block size is
      never published; any other arrives, followed by whatever a longer temp file from before still holds. */
  lemma FirstSyncOutcome(H: Hash, s: State, p: Path, C: seq<byte>, bs: BlockSize, env: Env)
    requires s.upload.None? && s.blockSize == bs && Reliable(env) && p !in s.files && Representable(|C|, bs)
    ensures var T := Held(s.files, p);
            Content(Sync(H, s, p, C, bs, env).state.files, p) ==
              if |C| % bs != 0 then Some(C + if |T| > |C| then T[|C|..] else []) else None
  {
    var n := BlockCount(|C|, bs);
    CountIsExact(|C|, bs);
    var sigs := AllSignatures(H, C, bs);
    var req := RequestList(H, Missing, |C|, bs, sigs);
    WantedBelowFacts(H, Missing, bs, sigs, n);
    KeptFacts(req, |C|, bs);
    var order := Kept(req, |C|, bs);
    forall i: nat ensures i in order <==> HasBlock(|C|, bs, i) { BlockInRange(i, |C|, bs); }
    Finalisation(H, s, p, C, bs, order, env);
    AllSentEndsShort(|C|, bs, order);
    if |C| % bs != 0 {
      AllSentOver(Held(s.files, p), C, bs, order);
    }
    FirstSyncUnfolded(H, s, p, C, bs, env);
    hide Sync, Serve, WriteAll, EndsShort, Kept, RequestList, AllSignatures, BlockCount, BlockCount32, Representable;
    TmpPathEnds(p);
  }

  lemma AllSentOver(T: seq<byte>, C: seq<byte>, bs: nat, order: seq<nat>)
    requires bs > 0 && EndsShort(|C|, bs, bs, order) && forall i: nat :: i in order <==> HasBlock(|C|, bs, i)
    ensures WriteAll(T, Tiles(C, bs, order)) == C + if |T| > |C| then T[|C|..] else []
  {
    hide WriteAll, At, EndsShort, Tiles, OrZero, HasBlock;
    var r := WriteAll(T, Tiles(C, bs, order));
    forall i: nat, k: nat | At(bs, i, k)
      ensures |r| == Max(|T|, |C|) && (k < |r| ==> r[k] == if k < |C| then C[k] else OrZero(T, k))
    {
      Overlaid(T, C, bs, bs, order, i, k);
      if k < |C| {
        PositionHasBlock(C, bs, i, k);
      }
    }
    LongerTempShows(r, T, C, bs);
  }

  lemma LongerTempShows(r: seq<byte>, T: seq<byte>, C: seq<byte>, bs: nat)
    requires bs > 0
    requires forall i: nat, k: nat :: At(bs, i, k) ==>
               |r| == Max(|T|, |C|) && (k < |r| ==> r[k] == if k < |C| then C[k] else OrZero(T, k))
    ensures r == C + if |T| > |C| then T[|C|..] else []
  {
    hide At;
    var want := C + if |T| > |C| then T[|C|..] else [];
    var i0 := BlockOfPosition(0, bs);
    forall k: nat | k < |r| ensures r[k] == want[k] {
      var i := BlockOfPosition(k, bs);
    }
  }

  lemma FirstSyncUnfolded(H: Hash, s: State, p: Path, C: seq<byte>, bs: BlockSize, env: Env)
    requires s.upload.None? && p !in s.files
    ensures var req := RequestList(H, Missing, |C|, bs, AllSignatures(H, C, bs));
            Sync(H, s, p, C, bs, env).state == Serve(H, s, BlockInputs(p, Sent(H, C, bs, req), env)).state
  {
    hide Serve, RequestList, AllSignatures;
  }

  lemma AllSentEndsShort(size: nat, bs: nat, order: seq<nat>)
    requires bs > 0 && StrictlyIncreasing(order) && forall i: nat :: i in order <==> HasBlock(size, bs, i)
    ensures EndsShort(size, bs, bs, order) <==> size % bs != 0
  {
    EndsShortIff(size, bs, order);
    if size % bs != 0 {
      var n := BlockCount(size, bs);
      assert size > 0;
      BlockInRange(0, size, bs);
      BlockInRange(n - 1, size, bs);
      var j :| 0 <= j < |order| && order[j] == n - 1;
      var last := order[|order| - 1];
      assert last in order;
      BlockInRange(last, size, bs);
    }
  }

  /** When the client's engine works with a smaller block size than the server finalises by, every block it sends is
      taken for the last one and published on its own. */
  lemma SmallerBlocksPublishEarly(H: Hash, s: State, p: Path, C: seq<byte>, bs: nat, i: nat, env: Env)
    requires HasBlock(|C|, bs, i) && bs < s.blockSize && s.upload.None? && Reliable(env)
    ensures var o := Receive(H, s, Input(BlockData(p, BlockOf(H, C, bs, i)), env));
            && Content(o.state.files, p) == Some(WriteAt(Held(s.files, p), i * bs, Tile(C, bs, i)))
            && TmpPath(p) !in o.state.files
            && |o.replies| == 1 && o.replies[0].Complete? && o.replies[0].status == OK
  {
    TmpPathEnds(p);
  }
}
