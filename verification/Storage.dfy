/** The server's store: whole files under paths, written through `<path>.tmp` and published by rename. */
module Storage {
  import opened Bytes
  import opened Blocks

  type Path = string
  type Files = map<Path, seq<byte>>

  function TmpPath(p: Path): Path {
    p + ".tmp"
  }

  function Content(fs: Files, p: Path): Option<seq<byte>> {
    if p in fs then Some(fs[p]) else None
  }

  function OrEmpty(c: Option<seq<byte>>): seq<byte> {
    match c case None => [] case Some(s) => s
  }

  /** One block into the temp file, which starts out empty: it is never seeded from the published file. */
  function WriteBlock(fs: Files, p: Path, offset: nat, data: seq<byte>): Files {
    fs[TmpPath(p) := WriteAt(OrEmpty(Content(fs, TmpPath(p))), offset, data)]
  }

  function WriteFile(fs: Files, p: Path, data: seq<byte>): Files {
    fs[TmpPath(p) := data]
  }

  function Publish(fs: Files, p: Path): Files {
    if TmpPath(p) in fs then (fs - {TmpPath(p)})[p := fs[TmpPath(p)]] else fs
  }

  /** How the operating system treats one write: the file does not open, the write stops after `n` octets, or all is well. */
  datatype WriteIo = Refused | Cut(n: nat) | Done

  /** What of the data reaches the file. */
  function Landed(data: seq<byte>, io: WriteIo): (r: seq<byte>)
    ensures r <= data && (!io.Cut? ==> r == data) && (io.Cut? ==> |r| == Min(io.n, |data|))
  {
    if io.Cut? then data[..Min(io.n, |data|)] else data
  }

  // ---- The FileManager object ---------------------------------------------------------

  class FileManager {
    var files: Files

    constructor (initial: Files)
      ensures files == initial
    {
      files := initial;
    }

    method ReadBlock(p: Path, offset: nat, size: nat) returns (data: seq<byte>)
      ensures data == if p in files then Blocks.ReadBlock(files[p], offset, size) else []
    {
      if p !in files || offset > |files[p]| {
        return [];
      }
      var available := files[p][offset..];
      return available[..Min(size, |available|)];
    }

    method WriteBlockAtomic(p: Path, offset: nat, data: seq<byte>, io: WriteIo) returns (ok: bool)
      modifies this
      ensures ok == io.Done?
      ensures files == if io.Refused? then old(files) else WriteBlock(old(files), p, offset, Landed(data, io))
    {
      if io.Refused? {
        return false;
      }
      var tmp := TmpPath(p);
      if tmp !in files {
        files := files[tmp := []];
      }
      files := files[tmp := WriteAt(files[tmp], offset, Landed(data, io))];
      return io.Done?;
    }

    method WriteFileAtomic(p: Path, data: seq<byte>, io: WriteIo) returns (ok: bool)
      modifies this
      ensures ok == io.Done?
      ensures files == if io.Refused? then old(files) else WriteFile(old(files), p, Landed(data, io))
    {
      if io.Refused? {
        return false;
      }
      files := files[TmpPath(p) := []];
      files := files[TmpPath(p) := Landed(data, io)];
      return io.Done?;
    }

    method AtomicRenameTmp(p: Path, canRename: bool) returns (ok: bool)
      modifies this
      ensures ok == (canRename && TmpPath(p) in old(files))
      ensures files == if ok then Publish(old(files), p) else old(files)
    {
      var tmp := TmpPath(p);
      if tmp !in files || !canRename {
        return false;
      }
      var content := files[tmp];
      files := files - {tmp};
      files := files[p := content];
      return true;
    }
  }

  // ---- Many sessions on one store ------------------------------------------------------

  datatype Op =
    | BlockOp(path: Path, offset: nat, data: seq<byte>)
    | FileOp(path: Path, data: seq<byte>)
    | RenameOp(path: Path)

  function Step(fs: Files, op: Op): Files {
    match op
    case BlockOp(p, off, d) => WriteBlock(fs, p, off, d)
    case FileOp(p, d) => WriteFile(fs, p, d)
    case RenameOp(p) => Publish(fs, p)
  }

  /** Any interleaving of the operations of any number of sessions. */
  function Run(fs: Files, ops: seq<Op>): Files {
    if ops == [] then fs else Step(Run(fs, ops[..|ops| - 1]), ops[|ops| - 1])
  }

  /** Everything one target owns: its published content and its temp content. */
  datatype Slot = Slot(target: Option<seq<byte>>, temp: Option<seq<byte>>)

  function SlotOf(fs: Files, p: Path): Slot {
    Slot(Content(fs, p), Content(fs, TmpPath(p)))
  }

  /** The effect of an operation on the slot of its own path. */
  function SlotStep(s: Slot, op: Op): Slot {
    match op
    case BlockOp(_, off, d) => Slot(s.target, Some(WriteAt(OrEmpty(s.temp), off, d)))
    case FileOp(_, d) => Slot(s.target, Some(d))
    case RenameOp(_) => if s.temp.Some? then Slot(s.temp, None) else s
  }

  function SlotRun(s: Slot, ops: seq<Op>): Slot {
    if ops == [] then s else SlotStep(SlotRun(s, ops[..|ops| - 1]), ops[|ops| - 1])
  }

  function On(ops: seq<Op>, p: Path): seq<Op> {
    if ops == [] then [] else
      On(ops[..|ops| - 1], p) + if ops[|ops| - 1].path == p then [ops[|ops| - 1]] else []
  }

  predicate EndsWithTmp(p: Path) {
    |p| >= 4 && p[|p| - 4..] == ".tmp"
  }

  lemma TmpPathInjective(p: Path, q: Path)
    ensures TmpPath(p) == TmpPath(q) <==> p == q
  {
    assert TmpPath(p)[..|p|] == p && TmpPath(q)[..|q|] == q;
  }

  lemma TmpPathEnds(p: Path)
    ensures EndsWithTmp(TmpPath(p)) && TmpPath(p) != p
  {
    assert |TmpPath(p)| == |p| + 4;
  }

  /** Neither path is the other's temp file. */
  predicate Apart(p: Path, q: Path) {
    p != q && p != TmpPath(q) && q != TmpPath(p)
  }

  lemma TargetsApart(p: Path, q: Path)
    requires !EndsWithTmp(p) && !EndsWithTmp(q) && p != q
    ensures Apart(p, q)
  {
    TmpPathEnds(p);
    TmpPathEnds(q);
  }

  lemma OwnStep(fs: Files, op: Op)
    ensures SlotOf(Step(fs, op), op.path) == SlotStep(SlotOf(fs, op.path), op)
  {
    TmpPathEnds(op.path);
  }

  /** Operations on `p` leave the slot of another path `q` alone, on every store, if and only if the two are apart. */
  lemma IsolatedIffApart(p: Path, q: Path)
    requires p != q
    ensures (forall fs, op: Op :: op.path == p ==> SlotOf(Step(fs, op), q) == SlotOf(fs, q)) <==> Apart(p, q)
  {
    if Apart(p, q) {
      TmpPathInjective(p, q);
    } else if q == TmpPath(p) {
      assert SlotOf(Step(map[], FileOp(p, [])), q).target == Some([]);
      assert SlotOf(map[], q).target == None;
    } else {
      TmpPathEnds(p);
      var fs: Files := map[TmpPath(p) := []];
      assert SlotOf(Step(fs, RenameOp(p)), q).temp == Some([]);
      TmpPathEnds(q);
      assert q != TmpPath(p);
      TmpPathInjective(p, q);
      assert SlotOf(fs, q).temp == None;
    }
  }

  /** Over every interleaving, what one target and its temp file hold depends only on that target's own operations. */
  lemma {:induction false} PathsAreIndependent(fs: Files, ops: seq<Op>, p: Path)
    requires !EndsWithTmp(p) && forall i :: 0 <= i < |ops| ==> !EndsWithTmp(ops[i].path)
    ensures SlotOf(Run(fs, ops), p) == SlotRun(SlotOf(fs, p), On(ops, p))
  {
    if ops != [] {
      var init, last := ops[..|ops| - 1], ops[|ops| - 1];
      PathsAreIndependent(fs, init, p);
      if last.path == p {
        OwnStep(Run(fs, init), last);
        assert On(ops, p)[..|On(ops, p)| - 1] == On(init, p);
      } else {
        TargetsApart(last.path, p);
        IsolatedIffApart(last.path, p);
        assert SlotOf(Step(Run(fs, init), last), p) == SlotOf(Run(fs, init), p);
        assert On(ops, p) == On(init, p);
      }
    }
  }

  /** The rename at position `k` finds a temp file to publish. */
  predicate Effective(fs: Files, ops: seq<Op>, k: nat, p: Path) {
    k < |ops| && ops[k] == RenameOp(p) && TmpPath(p) in Run(fs, ops[..k])
  }

  lemma EffectiveInPrefix(fs: Files, ops: seq<Op>, k: nat, p: Path)
    requires ops != [] && k < |ops| - 1
    ensures Effective(fs, ops[..|ops| - 1], k, p) <==> Effective(fs, ops, k, p)
    ensures ops[..|ops| - 1][..k] == ops[..k]
  {
    assert ops[..|ops| - 1][..k] == ops[..k];
  }

  /** The last operation, seen from target `p`. */
  lemma LastOp(fs: Files, ops: seq<Op>, p: Path)
    requires ops != [] && !EndsWithTmp(p) && !EndsWithTmp(ops[|ops| - 1].path)
    ensures var n := |ops| - 1;
            Content(Run(fs, ops), p) ==
              Content(Run(fs, ops[..n]), if Effective(fs, ops, n, p) then TmpPath(p) else p)
  {
    var n := |ops| - 1;
    OnlyRenamePublishes(Run(fs, ops[..n]), ops[n], p);
    if Effective(fs, ops, n, p) {
      OwnStep(Run(fs, ops[..n]), ops[n]);
    }
  }

  lemma {:induction false} NothingPublished(fs: Files, ops: seq<Op>, p: Path)
    requires !EndsWithTmp(p) && forall i :: 0 <= i < |ops| ==> !EndsWithTmp(ops[i].path)
    requires forall j :: 0 <= j < |ops| ==> !Effective(fs, ops, j, p)
    ensures Content(Run(fs, ops), p) == Content(fs, p)
  {
    if ops != [] {
      var init := ops[..|ops| - 1];
      hide Effective, Content, EndsWithTmp;
      LastOp(fs, ops, p);
      forall j | 0 <= j < |init| ensures !Effective(fs, init, j, p) { EffectiveInPrefix(fs, ops, j, p); }
      NothingPublished(fs, init, p);
    }
  }

  lemma {:induction false} LastPublished(fs: Files, ops: seq<Op>, p: Path, k: nat)
    requires !EndsWithTmp(p) && forall i :: 0 <= i < |ops| ==> !EndsWithTmp(ops[i].path)
    requires Effective(fs, ops, k, p) && forall j :: k < j < |ops| ==> !Effective(fs, ops, j, p)
    ensures Content(Run(fs, ops), p) == Content(Run(fs, ops[..k]), TmpPath(p))
  {
    LastOp(fs, ops, p);
    if k < |ops| - 1 {
      var init := ops[..|ops| - 1];
      EffectiveInPrefix(fs, ops, k, p);
      hide Effective, Content, EndsWithTmp, Run;
      forall j | k < j < |init| ensures !Effective(fs, init, j, p) { EffectiveInPrefix(fs, ops, j, p); }
      LastPublished(fs, init, p, k);
    }
  }

  /** Publication is all or nothing: after any interleaving a target holds what it held at the start if none of its
      renames found a temp file, and otherwise the whole temp content at the moment of the last one that did. */
  lemma PublishedWhole(fs: Files, ops: seq<Op>, p: Path)
    requires !EndsWithTmp(p) && forall i :: 0 <= i < |ops| ==> !EndsWithTmp(ops[i].path)
    ensures (forall j :: 0 <= j < |ops| ==> !Effective(fs, ops, j, p)) ==> Content(Run(fs, ops), p) == Content(fs, p)
    ensures forall k :: 0 <= k < |ops| && Effective(fs, ops, k, p)
                        && (forall j :: k < j < |ops| ==> !Effective(fs, ops, j, p)) ==>
              Content(Run(fs, ops), p) == Content(Run(fs, ops[..k]), TmpPath(p))
  {
    hide Effective, Content, EndsWithTmp, Run;
    if forall j :: 0 <= j < |ops| ==> !Effective(fs, ops, j, p) {
      NothingPublished(fs, ops, p);
    }
    forall k | 0 <= k < |ops| && Effective(fs, ops, k, p) && forall j :: k < j < |ops| ==> !Effective(fs, ops, j, p)
      ensures Content(Run(fs, ops), p) == Content(Run(fs, ops[..k]), TmpPath(p))
    {
      LastPublished(fs, ops, p, k);
    }
  }

  /** A write on one path changes no published content at all, and a rename only that of its own target. */
  lemma OnlyRenamePublishes(fs: Files, op: Op, p: Path)
    requires !EndsWithTmp(p) && !EndsWithTmp(op.path)
    ensures Content(Step(fs, op), p) != Content(fs, p) ==>
              op == RenameOp(p) && TmpPath(p) in fs && Content(Step(fs, op), p) == Content(fs, TmpPath(p))
  {
    if op.path != p {
      TargetsApart(op.path, p);
      IsolatedIffApart(op.path, p);
      assert SlotOf(Step(fs, op), p) == SlotOf(fs, p);
    } else {
      OwnStep(fs, op);
    }
  }
}
