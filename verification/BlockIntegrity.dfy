/** The integrity check of received blocks (server/src/delta_sync_handler.cpp): what a block with a wrong hash can do, which
    is nothing, and what becomes of a good one when the file system fails. */
module BlockIntegrity {
  import opened Bytes
  import opened Blocks
  import opened DeltaSync
  import opened Storage
  import opened Server

  predicate Genuine(H: Hash, b: Block) {
    H(b.data) == b.strong
  }

  predicate Corrupt(H: Hash, inp: Input) {
    inp.msg.BlockData? && !Genuine(H, inp.msg.block)
  }

  /** A corrupt block is answered with a checksum error and changes nothing, whatever the file system would do. */
  lemma CorruptBlockRejected(H: Hash, s: State, p: Path, b: Block, env: Env)
    requires s.upload.None? && H(b.data) != b.strong
    ensures Receive(H, s, Input(BlockData(p, b), env)) == Out(s, [Complete(p, 5, "")])
  {
  }

  /** The frames without the corrupt blocks. */
  ghost function Sound(H: Hash, ins: seq<Input>): seq<Input> {
    if ins == [] then [] else
      Sound(H, ins[..|ins| - 1]) + if Corrupt(H, ins[|ins| - 1]) then [] else [ins[|ins| - 1]]
  }

  /** On every run of arbitrary frames, corrupt blocks leave no trace: the server ends up as if they had never been sent. */
  lemma {:induction false} CorruptBlocksChangeNothing(H: Hash, s: State, ins: seq<Input>)
    ensures Serve(H, s, ins).state == Serve(H, s, Sound(H, ins)).state
  {
    if ins != [] {
      var init, last := ins[..|ins| - 1], ins[|ins| - 1];
      assert ins == init + [last];
      hide Serve, Receive;
      CorruptBlocksChangeNothing(H, s, init);
      OneMoreFrame(H, s, init, last);
      if Corrupt(H, last) {
        CorruptFrame(H, Serve(H, s, init).state, last);
        assert Sound(H, ins) == Sound(H, init);
      } else {
        OneMoreFrame(H, s, Sound(H, init), last);
      }
    }
  }

  lemma OneMoreFrame(H: Hash, s: State, xs: seq<Input>, x: Input)
    ensures Serve(H, s, xs + [x]).state == Receive(H, Serve(H, s, xs).state, x).state
  {
    hide Receive;
    assert (xs + [x])[..|xs|] == xs;
  }

  lemma CorruptFrame(H: Hash, s: State, inp: Input)
    requires Corrupt(H, inp)
    ensures Receive(H, s, inp).state == s
  {
    if s.upload.None? {
      CorruptBlockRejected(H, s, inp.msg.path, inp.msg.block, inp.env);
    }
  }

  // ---- Where octets come from ----------------------------------------------------------------

  /** Position `k` of a genuine block among the frames carries `v`. */
  predicate Delivers(H: Hash, inp: Input, k: nat, v: byte) {
    && inp.msg.BlockData? && Genuine(H, inp.msg.block)
    && var b := inp.msg.block;
       b.offset <= k < b.offset + |b.data| && b.data[k - b.offset] == v
  }

  /** The octet `v` at position `k` of some file is a gap, was at that position of some file before, or was delivered. */
  ghost predicate Origin(H: Hash, files: Files, ins: seq<Input>, k: nat, v: byte) {
    || v == 0
    || (exists q :: q in files && k < |files[q]| && files[q][k] == v)
    || (exists i :: 0 <= i < |ins| && Delivers(H, ins[i], k, v))
  }

  /** One block frame: each file is as before, or it is a genuine block laid over the old temp file. */
  lemma FilesAfterBlock(H: Hash, s: State, p: Path, b: Block, env: Env, q: Path)
    requires s.upload.None? && q in Receive(H, s, Input(BlockData(p, b), env)).state.files
    ensures var o := Receive(H, s, Input(BlockData(p, b), env));
            && o.state == s.(files := o.state.files)
            && ((q in s.files && o.state.files[q] == s.files[q])
                || (Genuine(H, b)
                    && o.state.files[q] == WriteAt(OrEmpty(Content(s.files, TmpPath(p))), b.offset, Landed(b.data, env.write))))
  {
    hide WriteAt, Landed;
    TmpPathEnds(p);
  }

  /** Every octet of every file has an origin. */
  ghost predicate AllGenuine(H: Hash, old': Files, ins: seq<Input>, new': Files) {
    forall q: Path, k: nat :: q in new' && k < |new'[q]| ==> Origin(H, old', ins, k, new'[q][k])
  }

  /** Over every run of arbitrary block frames, from any peer and with any failures: every octet of every temp or published
      file was there before, is a gap, or comes from a block whose data hashes to its declared hash. */
  lemma {:induction false} OctetsAreGenuine(H: Hash, s: State, ins: seq<Input>)
    requires s.upload.None? && forall i :: 0 <= i < |ins| ==> ins[i].msg.BlockData?
    ensures AllGenuine(H, s.files, ins, Serve(H, s, ins).state.files)
    decreases |ins|
  {
    if ins == [] {
      assert Serve(H, s, ins).state == s;
    } else {
      var init, last := ins[..|ins| - 1], ins[|ins| - 1];
      assert ins == init + [last];
      hide Serve, Receive, AllGenuine;
      OctetsAreGenuine(H, s, init);
      StaysOutOfUpload(H, s, init);
      OneMoreFrame(H, s, init, last);
      GenuineStep(H, s.files, init, Serve(H, s, init).state, last);
    }
  }

  lemma GenuineStep(H: Hash, old': Files, init: seq<Input>, t: State, last: Input)
    requires t.upload.None? && last.msg.BlockData? && AllGenuine(H, old', init, t.files)
    ensures AllGenuine(H, old', init + [last], Receive(H, t, last).state.files)
  {
    hide Receive, Origin;
    var files := Receive(H, t, last).state.files;
    forall q: Path, k: nat | q in files && k < |files[q]| ensures Origin(H, old', init + [last], k, files[q][k]) {
      GenuineOctet(H, old', init, t, last, q, k);
    }
  }

  lemma GenuineOctet(H: Hash, old': Files, init: seq<Input>, t: State, last: Input, q: Path, k: nat)
    requires t.upload.None? && last.msg.BlockData? && AllGenuine(H, old', init, t.files)
    requires var files := Receive(H, t, last).state.files; q in files && k < |files[q]|
    ensures Origin(H, old', init + [last], k, Receive(H, t, last).state.files[q][k])
  {
    hide Receive, WriteAt, Landed, Origin, Content, OrEmpty, Delivers;
    var p, b, f := last.msg.path, last.msg.block, Receive(H, t, last).state.files[q];
    FilesAfterBlock(H, t, p, b, last.env, q);
    if q in t.files && f == t.files[q] {
      OriginGrows(H, old', init, last, k, f[k]);
    } else {
      var tmp := OrEmpty(Content(t.files, TmpPath(p)));
      WrittenOctet(tmp, b, last.env.write, k);
      TempContent(t.files, p);
      if k < |tmp| {
        OriginGrows(H, old', init, last, k, tmp[k]);
      }
      OriginOfWritten(H, old', init, last, tmp, k, f[k]);
    }
  }

  lemma TempContent(files: Files, p: Path)
    ensures var tmp := OrEmpty(Content(files, TmpPath(p))); tmp != [] ==> TmpPath(p) in files && files[TmpPath(p)] == tmp
  {
  }

  lemma {:induction false} StaysOutOfUpload(H: Hash, s: State, ins: seq<Input>)
    requires s.upload.None? && forall i :: 0 <= i < |ins| ==> ins[i].msg.BlockData?
    ensures Serve(H, s, ins).state.upload.None?
  {
    if ins != [] {
      StaysOutOfUpload(H, s, ins[..|ins| - 1]);
    }
  }

  lemma OriginGrows(H: Hash, files: Files, init: seq<Input>, last: Input, k: nat, v: byte)
    requires Origin(H, files, init, k, v)
    ensures Origin(H, files, init + [last], k, v)
  {
    if i :| 0 <= i < |init| && Delivers(H, init[i], k, v) {
      assert Delivers(H, (init + [last])[i], k, v);
    }
  }

  lemma WrittenOctet(tmp: seq<byte>, b: Block, io: WriteIo, k: nat)
    ensures var r := WriteAt(tmp, b.offset, Landed(b.data, io));
            k < |r| ==>
              || (b.offset <= k < b.offset + |b.data| && r[k] == b.data[k - b.offset])
              || (k < |tmp| && r[k] == tmp[k])
              || r[k] == 0
  {
    WriteAtIndex(tmp, b.offset, Landed(b.data, io), k);
    hide WriteAt;
  }

  lemma OriginOfWritten(H: Hash, files: Files, init: seq<Input>, last: Input, tmp: seq<byte>, k: nat, v: byte)
    requires last.msg.BlockData? && Genuine(H, last.msg.block)
    requires var b := last.msg.block;
             || (b.offset <= k < b.offset + |b.data| && v == b.data[k - b.offset])
             || (k < |tmp| && v == tmp[k] && Origin(H, files, init + [last], k, v))
             || v == 0
    ensures Origin(H, files, init + [last], k, v)
  {
    if Delivers(H, last, k, v) {
      assert Delivers(H, (init + [last])[|init|], k, v);
    }
  }

  // ---- A block and a failing file system --------------------------------------------------------

  /** The target changes exactly when the block is genuine, was written in full, is shorter than the server's block size, and
      the temp file could be read back and renamed; it then holds the whole temp content. */
  lemma PublishedIff(H: Hash, s: State, p: Path, b: Block, env: Env)
    requires s.upload.None?
    ensures var o := Receive(H, s, Input(BlockData(p, b), env));
            Content(o.state.files, p) ==
              if Genuine(H, b) && env.write.Done? && |b.data| < s.blockSize && env.canCheck && env.canRename
              then Some(WriteAt(OrEmpty(Content(s.files, TmpPath(p))), b.offset, b.data))
              else Content(s.files, p)
  {
    hide WriteAt;
    TmpPathEnds(p);
  }

  /** Success is reported exactly for genuine, fully written, short blocks, unless the rename fails. In particular it is
      reported without anything having been published when the temp file cannot be read back. */
  lemma SuccessReportedIff(H: Hash, s: State, p: Path, b: Block, env: Env)
    requires s.upload.None?
    ensures var o := Receive(H, s, Input(BlockData(p, b), env));
            && (|o.replies| == 1 && o.replies[0].Complete? && o.replies[0].status == 1
                <==> Genuine(H, b) && env.write.Done? && |b.data| < s.blockSize && (env.canCheck ==> env.canRename))
            && (o.replies == [] <==> Genuine(H, b) && env.write.Done? && |b.data| >= s.blockSize)
            && (o.replies != [] ==>
                  && |o.replies| == 1 && o.replies[0].Complete? && o.replies[0].path == p
                  && (o.replies[0].status == 5 <==> !Genuine(H, b))
                  && (o.replies[0].status != 1 ==> o.replies[0].sha == "" && o.replies[0].status in {2, 5}))
  {
  }
}
