/** The client's local files: blocks written to a temp file whose name replaces the extension, then renamed. */
module ClientFiles {
  import opened Bytes
  import opened Blocks
  import Storage
  import DeltaSession

  type Path = string
  type Files = map<Path, seq<byte>>
  type Hash = seq<byte> -> string

  datatype Result<+T> = Ok(value: T) | Err

  // ---- Temp names -----------------------------------------------------------------------

  /** The last index of `c` in `s`, or -1. */
  function LastIndex(s: string, c: char): (k: int)
    ensures -1 <= k < |s|
    ensures k >= 0 ==> s[k] == c
    ensures forall j :: k < j < |s| ==> s[j] != c
  {
    if s == [] then -1 else if s[|s| - 1] == c then |s| - 1 else LastIndex(s[..|s| - 1], c)
  }

  function NameStart(p: Path): nat {
    LastIndex(p, '/') + 1
  }

  predicate Named(p: Path) {
    var name := p[NameStart(p)..];
    name != "" && name != "." && name != ".."
  }

  /** The path without its extension; a leading dot of the name starts no extension. */
  function Stem(p: Path): Path {
    var n := NameStart(p);
    var d := LastIndex(p[n..], '.');
    if d <= 0 then p else p[..n + d]
  }

  /** `with_extension("tmp")`. */
  function WithTmp(p: Path): Path {
    if Named(p) then Stem(p) + ".tmp" else p
  }

  lemma LastIndexIs(s: string, c: char, k: int)
    requires -1 <= k < |s| && (k >= 0 ==> s[k] == c) && forall j :: k < j < |s| ==> s[j] != c
    ensures LastIndex(s, c) == k
  {
  }

  lemma StemKeepsDirectory(p: Path)
    requires Named(p)
    ensures NameStart(p) < |Stem(p)| <= |p| && Stem(p) == p[..|Stem(p)|]
    ensures NameStart(Stem(p) + ".tmp") == NameStart(p)
  {
    var t := Stem(p) + ".tmp";
    assert Stem(p) == p[..|Stem(p)|];
    forall j | NameStart(p) <= j < |t| ensures t[j] != '/' {
      assert j < |Stem(p)| ==> t[j] == p[j];
    }
    LastIndexIs(t, '/', LastIndex(p, '/'));
  }

  lemma StemOfTmp(p: Path)
    requires Named(p)
    ensures Stem(WithTmp(p)) == Stem(p) && Named(WithTmp(p))
  {
    StemKeepsDirectory(p);
    hide Stem;
    TmpStem(Stem(p), NameStart(p));
  }

  lemma TmpStem(stem: Path, n: nat)
    requires n < |stem| && NameStart(stem + ".tmp") == n
    ensures Stem(stem + ".tmp") == stem && Named(stem + ".tmp")
  {
    hide LastIndex;
    var t := stem + ".tmp";
    var name := t[n..];
    assert name[|name| - 4..] == ".tmp";
    LastIndexIs(name, '.', |name| - 4);
    assert t[..|t| - 4] == stem;
  }

  lemma StemSharedIff(p: Path, q: Path)
    requires Named(p) && Named(q)
    ensures WithTmp(p) == WithTmp(q) <==> Stem(p) == Stem(q)
  {
    assert WithTmp(p)[..|Stem(p)|] == Stem(p) && WithTmp(q)[..|Stem(q)|] == Stem(q);
    assert |WithTmp(p)| == |Stem(p)| + 4 && |WithTmp(q)| == |Stem(q)| + 4;
  }

  // ---- Temp names in terms of directory, base name and extension ----------------------------

  /** A file name: `base` alone, or `base.ext`. */
  function FileName(base: string, ext: Option<string>): string {
    match ext case None => base case Some(e) => base + "." + e
  }

  /** The parts of a path. A name without extension has no dot after its first character, and an extension has none. */
  predicate Parts(dir: string, base: string, ext: Option<string>) {
    && (dir == "" || dir[|dir| - 1] == '/')
    && base != "" && '/' !in base
    && match ext
       case None => '.' !in base[1..] && base != "."
       case Some(e) => '/' !in e && '.' !in e && base + "." + e != ".."
  }

  lemma NameStartsAfter(dir: string, name: string)
    requires (dir == "" || dir[|dir| - 1] == '/') && '/' !in name
    ensures NameStart(dir + name) == |dir| && (dir + name)[|dir|..] == name
  {
    hide LastIndex;
    LastIndexIs(dir + name, '/', |dir| - 1);
  }

  lemma LastDot(base: string, ext: Option<string>)
    requires base != "" && match ext case None => '.' !in base[1..] case Some(e) => '.' !in e
    ensures var d := LastIndex(FileName(base, ext), '.'); if ext.None? then d <= 0 else d == |base|
  {
    match ext
    case None =>
      if base[0] == '.' {
        forall j | 0 < j < |base| ensures base[j] != '.' { assert base[1..][j - 1] == base[j]; }
        LastIndexIs(base, '.', 0);
      } else {
        forall j | 0 <= j < |base| ensures base[j] != '.' { assert j > 0 ==> base[1..][j - 1] == base[j]; }
        LastIndexIs(base, '.', -1);
      }
    case Some(e) =>
      var name := base + "." + e;
      assert forall j :: |base| < j < |name| ==> name[j] == e[j - |base| - 1];
      LastIndexIs(name, '.', |base|);
  }

  lemma FileNameFacts(dir: string, base: string, ext: Option<string>)
    requires Parts(dir, base, ext)
    ensures var name := FileName(base, ext); '/' !in name && name != "" && name != "." && name != ".."
  {
    assert |base| == 2 ==> base[1..][0] == base[1];
  }

  /** The temp file is the path with its extension replaced, or with `.tmp` behind a name without one. */
  lemma TmpOf(dir: string, base: string, ext: Option<string>)
    requires Parts(dir, base, ext)
    ensures var p := dir + FileName(base, ext); Named(p) && Stem(p) == dir + base && WithTmp(p) == dir + base + ".tmp"
  {
    hide LastIndex, FileName;
    var name := FileName(base, ext);
    FileNameFacts(dir, base, ext);
    NameStartsAfter(dir, name);
    LastDot(base, ext);
    CutAtBase(dir, base, ext);
  }

  lemma CutAtBase(dir: string, base: string, ext: Option<string>)
    ensures var p := dir + FileName(base, ext);
            if ext.None? then p == dir + base else |dir| + |base| <= |p| && p[..|dir| + |base|] == dir + base
  {
  }

  /** Every path has such parts. */
  lemma PathHasParts(p: Path) returns (dir: string, base: string, ext: Option<string>)
    requires Named(p)
    ensures Parts(dir, base, ext) && p == dir + FileName(base, ext)
  {
    hide LastIndex, FileName, Parts, NameStart, Named;
    var name;
    dir, name := DirectoryAndName(p);
    base, ext := NameHasParts(name);
    PartsOfPath(dir, name, base, ext);
  }

  lemma DirectoryAndName(p: Path) returns (dir: string, name: string)
    requires Named(p)
    ensures p == dir + name && (dir == "" || dir[|dir| - 1] == '/')
    ensures name != "" && name != "." && name != ".." && forall j :: 0 <= j < |name| ==> name[j] != '/'
  {
    hide LastIndex;
    var n := NameStart(p);
    dir, name := p[..n], p[n..];
    assert forall j :: 0 <= j < |name| ==> name[j] == p[n + j];
  }

  lemma NameHasParts(name: string) returns (base: string, ext: Option<string>)
    requires name != ""
    ensures base != "" && name == FileName(base, ext)
    ensures match ext case None => '.' !in base[1..] case Some(e) => '.' !in e
  {
    var d := LastIndex(name, '.');
    hide LastIndex;
    if d <= 0 {
      base, ext := name, None;
      assert forall j :: 0 <= j < |base[1..]| ==> base[1..][j] == name[j + 1];
    } else {
      base, ext := name[..d], Some(name[d + 1..]);
      var e := name[d + 1..];
      assert forall j :: 0 <= j < |e| ==> e[j] == name[d + 1 + j];
      assert name == base + "." + ext.value;
    }
  }

  lemma PartsOfPath(dir: string, name: string, base: string, ext: Option<string>)
    requires (dir == "" || dir[|dir| - 1] == '/') && name != "." && name != ".." && forall j :: 0 <= j < |name| ==> name[j] != '/'
    requires base != "" && name == FileName(base, ext)
    requires match ext case None => '.' !in base[1..] case Some(e) => '.' !in e
    ensures Parts(dir, base, ext)
  {
    assert forall j :: 0 <= j < |base| ==> base[j] == name[j];
    if ext.Some? {
      assert forall j :: 0 <= j < |ext.value| ==> ext.value[j] == name[|base| + 1 + j];
    }
  }

  /** Two paths share a temp file exactly when they have the same directory and the same base name. */
  lemma TmpSharedIff(dir: string, base: string, ext: Option<string>, dir': string, base': string, ext': Option<string>)
    requires Parts(dir, base, ext) && Parts(dir', base', ext')
    ensures WithTmp(dir + FileName(base, ext)) == WithTmp(dir' + FileName(base', ext')) <==> dir == dir' && base == base'
  {
    hide FileName, Stem, Named;
    TmpOf(dir, base, ext);
    TmpOf(dir', base', ext');
    StemSharedIff(dir + FileName(base, ext), dir' + FileName(base', ext'));
    SamePartsIff(dir, base, dir', base');
  }

  lemma SamePartsIff(dir: string, base: string, dir': string, base': string)
    requires (dir == "" || dir[|dir| - 1] == '/') && '/' !in base && (dir' == "" || dir'[|dir'| - 1] == '/') && '/' !in base'
    ensures dir + base == dir' + base' <==> dir == dir' && base == base'
  {
    if dir + base == dir' + base' {
      NameStartsAfter(dir, base);
      NameStartsAfter(dir', base');
      assert (dir + base)[..|dir|] == dir && (dir' + base')[..|dir'|] == dir';
    }
  }

  /** A path is its own temp file exactly when its extension is already `tmp`. */
  lemma OwnTmpIff(p: Path)
    requires Named(p)
    ensures WithTmp(p) == p <==> Storage.EndsWithTmp(p) && |p| - NameStart(p) > 4
  {
    StemKeepsDirectory(p);
    if Storage.EndsWithTmp(p) && |p| - NameStart(p) > 4 {
      var name := p[NameStart(p)..];
      assert name[|name| - 4..] == ".tmp";
      LastIndexIs(name, '.', |name| - 4);
    }
    if WithTmp(p) == p {
      assert p[|p| - 4..] == ".tmp";
    }
  }

  lemma ExtensionsClash()
    ensures WithTmp("a/f.txt") == WithTmp("a/f.bin") == "a/f.tmp"
    ensures Storage.TmpPath("a/f.txt") == "a/f.txt.tmp" && Storage.TmpPath("a/f.txt") != Storage.TmpPath("a/f.bin")
  {
    hide LastIndex, Stem, WithTmp, Named;
    assert "f" + "." + "txt" == "f.txt" && "f" + "." + "bin" == "f.bin" && "a/" + "f" + ".tmp" == "a/f.tmp";
    assert "a/" + "f.txt" == "a/f.txt" && "a/" + "f.bin" == "a/f.bin";
    TmpOf("a/", "f", Some("txt"));
    TmpOf("a/", "f", Some("bin"));
    Storage.TmpPathInjective("a/f.txt", "a/f.bin");
    assert "a/f.txt"[4] != "a/f.bin"[4];
  }

  // ---- One store, many targets ------------------------------------------------------------

  function WriteBlock(fs: Files, p: Path, offset: nat, data: seq<byte>): Files {
    fs[WithTmp(p) := WriteAt(Storage.OrEmpty(Storage.Content(fs, WithTmp(p))), offset, data)]
  }

  function Finalize(fs: Files, p: Path): Files {
    if WithTmp(p) in fs then (fs - {WithTmp(p)})[p := fs[WithTmp(p)]] else fs
  }

  /** Work on `p` leaves the content of `q` and of its temp file alone, whatever the store. */
  ghost predicate Isolated(p: Path, q: Path) {
    && (forall fs, offset, data ::
          Storage.Content(WriteBlock(fs, p, offset, data), q) == Storage.Content(fs, q)
          && Storage.Content(WriteBlock(fs, p, offset, data), WithTmp(q)) == Storage.Content(fs, WithTmp(q)))
    && (forall fs :: Storage.Content(Finalize(fs, p), q) == Storage.Content(fs, q)
                     && Storage.Content(Finalize(fs, p), WithTmp(q)) == Storage.Content(fs, WithTmp(q)))
  }

  /** Two local targets are isolated exactly when they differ in directory or base name. On the server, distinct targets not
      ending in `.tmp` always are (`Storage.IsolatedIffApart`). */
  lemma IsolatedIff(dir: string, base: string, ext: Option<string>, dir': string, base': string, ext': Option<string>)
    requires Parts(dir, base, ext) && Parts(dir', base', ext') && dir + FileName(base, ext) != dir' + FileName(base', ext')
    ensures Isolated(dir + FileName(base, ext), dir' + FileName(base', ext')) <==> !(dir == dir' && base == base')
  {
    hide FileName, Stem, Named, Isolated;
    TmpOf(dir, base, ext);
    TmpOf(dir', base', ext');
    StemIsolatedIff(dir + FileName(base, ext), dir' + FileName(base', ext'));
    SamePartsIff(dir, base, dir', base');
  }

  lemma StemIsolatedIff(p: Path, q: Path)
    requires Named(p) && Named(q) && p != q
    ensures Isolated(p, q) <==> Stem(p) != Stem(q)
  {
    hide Stem, WithTmp, Named, WriteAt;
    StemSharedIff(p, q);
    StemOfTmp(p);
    StemOfTmp(q);
    if Stem(p) == Stem(q) {
      var fs := WriteBlock(map[], p, 0, [1]);
      assert Storage.Content(fs, WithTmp(q)) == Some(fs[WithTmp(q)]);
      assert Storage.Content(map[], WithTmp(q)) == None;
    }
  }

  // ---- Rebuilding a file from blocks ---------------------------------------------------------

  /** The store after all blocks have been applied and the temp file renamed. */
  function Applied(fs: Files, p: Path, total: nat, blocks: seq<Patch>): Files {
    (fs - {WithTmp(p)})[p := WriteAll(Zeros(total), blocks)]
  }

  /** Blocks of `f` applied in any order, with any repetition, to a zeroed file of the right size give back `f` exactly when
      every block that is missing consists of zeros. */
  lemma AppliedIsFileIff(fs: Files, p: Path, f: seq<byte>, bs: nat, order: seq<nat>)
    requires bs > 0 && InFile(order, |f|, bs)
    ensures Applied(fs, p, |f|, Tiles(f, bs, order))[p] == f <==> DeltaSession.UnsentAreZero(f, bs, order)
  {
    hide WriteAll;
    var ps := Tiles(f, bs, order);
    var r := WriteAll(Zeros(|f|), ps);
    PiecesLength(Zeros(|f|), ps, f);
    if DeltaSession.UnsentAreZero(f, bs, order) {
      forall k: nat | k < |f| ensures r[k] == f[k] {
        var i := BlockOfPosition(k, bs);
        PositionHasBlock(f, bs, i, k);
        AppliedAt(f, bs, order, i, k);
      }
      assert r == f;
    }
    if r == f {
      forall i: nat | HasBlock(|f|, bs, i) && i !in order ensures DeltaSession.AllZero(Tile(f, bs, i)) {
        MissingIsZero(f, bs, order, i);
      }
    }
  }

  lemma AppliedAt(f: seq<byte>, bs: nat, order: seq<nat>, i: nat, k: nat)
    requires bs > 0 && InFile(order, |f|, bs) && k < |f| && At(bs, i, k)
    ensures var r := WriteAll(Zeros(|f|), Tiles(f, bs, order));
            |r| == |f| && r[k] == if i in order then f[k] else 0
  {
    hide WriteAll, At;
    PiecesLength(Zeros(|f|), Tiles(f, bs, order), f);
    WriteAllPieces(Zeros(|f|), Tiles(f, bs, order), f, k);
    TilesCover(f, bs, order, i, k);
  }

  lemma MissingIsZero(f: seq<byte>, bs: nat, order: seq<nat>, i: nat)
    requires bs > 0 && InFile(order, |f|, bs) && HasBlock(|f|, bs, i) && i !in order
    requires WriteAll(Zeros(|f|), Tiles(f, bs, order)) == f
    ensures DeltaSession.AllZero(Tile(f, bs, i))
  {
    hide WriteAll, At;
    var t := Tile(f, bs, i);
    forall j | 0 <= j < |t| ensures t[j] == 0 {
      var k := DeltaSession.TileIndex(f, bs, i, j);
      AppliedAt(f, bs, order, i, k);
    }
  }

  /** All blocks, each once, in any order: the rebuilt file is `f`, its temp file is gone and nothing else changed. */
  lemma AllBlocksRestore(fs: Files, p: Path, f: seq<byte>, bs: nat, order: seq<nat>)
    requires bs > 0 && multiset(order) == multiset(seq(BlockCount(|f|, bs), i => i))
    ensures InFile(order, |f|, bs)
    ensures var after := Applied(fs, p, |f|, Tiles(f, bs, order));
            && after[p] == f
            && (WithTmp(p) != p ==> WithTmp(p) !in after)
            && forall q :: q != p && q != WithTmp(p) ==> Storage.Content(after, q) == Storage.Content(fs, q)
  {
    hide WriteAll;
    MergeInAnyOrder(f, bs, order);
  }

  /** Which operating-system calls fail: creating and resizing the temp file, the block writes that are listed, in the
      way listed, reading the result back for its hash, and the rename. */
  datatype Faults = Faults(create: bool, resize: bool, writes: map<nat, Storage.WriteIo>, read: bool, rename: bool)

  function WriteOf(faults: Faults, i: nat): Storage.WriteIo {
    if i in faults.writes then faults.writes[i] else Storage.Done
  }

  predicate Clean(faults: Faults, blocks: seq<Patch>) {
    && !faults.create && !faults.resize && !faults.read && !faults.rename
    && forall i :: 0 <= i < |blocks| ==> WriteOf(faults, i).Done?
  }

  class FileOps {
    var files: Files

    constructor (initial: Files)
      ensures files == initial
    {
      files := initial;
    }

    method WriteBlockTo(p: Path, offset: nat, data: seq<byte>, io: Storage.WriteIo) returns (r: Result<()>)
      modifies this
      ensures r.Ok? == io.Done?
      ensures files == if io.Refused? then old(files) else WriteBlock(old(files), p, offset, Storage.Landed(data, io))
    {
      if io.Refused? {
        return Err;
      }
      var tmp := WithTmp(p);
      if tmp !in files {
        files := files[tmp := []];
      }
      files := files[tmp := WriteAt(files[tmp], offset, Storage.Landed(data, io))];
      return if io.Done? then Ok(()) else Err;
    }

    method FinalizeFile(p: Path, fault: bool) returns (r: Result<()>)
      modifies this
      ensures r.Ok? == (WithTmp(p) in old(files) ==> !fault)
      ensures files == if r.Ok? then Finalize(old(files), p) else old(files)
    {
      var tmp := WithTmp(p);
      if tmp in files {
        if fault {
          return Err;
        }
        var content := files[tmp];
        files := files - {tmp};
        files := files[p := content];
      }
      return Ok(());
    }

    /** The block loop: either all blocks are in the temp file, or a write failed and only the temp file has changed. */
    method WriteBlocks(p: Path, blocks: seq<Patch>, faults: Faults) returns (ok: bool)
      requires WithTmp(p) in files
      modifies this
      ensures ok == forall i :: 0 <= i < |blocks| ==> WriteOf(faults, i).Done?
      ensures ok ==> files == old(files)[WithTmp(p) := WriteAll(old(files)[WithTmp(p)], blocks)]
      ensures forall q :: q != WithTmp(p) ==> Storage.Content(files, q) == Storage.Content(old(files), q)
    {
      hide WriteAt, WithTmp, WriteAll;
      ghost var tmp, start := WithTmp(p), files[WithTmp(p)];
      WriteAllNone(start, blocks);
      for i := 0 to |blocks|
        invariant files == old(files)[tmp := WriteAll(start, blocks[..i])]
        invariant forall j :: 0 <= j < i ==> WriteOf(faults, j).Done?
      {
        WriteAllSnoc(start, blocks, i);
        var w := WriteBlockTo(p, blocks[i].offset, blocks[i].data, WriteOf(faults, i));
        if w.Err? {
          return false;
        }
      }
      assert blocks[..|blocks|] == blocks;
      return true;
    }

    /** `apply_blocks`. It succeeds exactly when no call fails, and then the file is the blocks over zeros and the result is
        its hash; when it fails, no file but the temp file has changed. */
    method ApplyBlocks(H: Hash, p: Path, total: nat, blocks: seq<Patch>, faults: Faults) returns (r: Result<string>)
      modifies this
      ensures r.Ok? == Clean(faults, blocks)
      ensures r.Ok? ==> files == Applied(old(files), p, total, blocks) && r.value == H(files[p])
      ensures r.Err? ==> forall q :: q != WithTmp(p) ==> Storage.Content(files, q) == Storage.Content(old(files), q)
    {
      hide WithTmp, Zeros, WriteAll, Finalize, Applied;
      FinalizeApplied(files, p, total, blocks);
      if faults.create {
        return Err;
      }
      var tmp := WithTmp(p);
      files := files[tmp := []];
      if faults.resize {
        return Err;
      }
      files := files[tmp := Zeros(total)];
      var ok := WriteBlocks(p, blocks, faults);
      if !ok || faults.read {
        return Err;
      }
      assert files == old(files)[tmp := WriteAll(Zeros(total), blocks)];
      var hash := H(files[tmp]);
      var done := FinalizeFile(p, faults.rename);
      if done.Err? {
        return Err;
      }
      return Ok(hash);
    }
  }

  lemma FinalizeApplied(fs: Files, p: Path, total: nat, blocks: seq<Patch>)
    ensures var content := WriteAll(Zeros(total), blocks);
            && Finalize(fs[WithTmp(p) := content], p) == Applied(fs, p, total, blocks)
            && p in Applied(fs, p, total, blocks) && Applied(fs, p, total, blocks)[p] == content
  {
    hide WithTmp, WriteAll, Zeros;
  }

  lemma WriteAllNone(f: seq<byte>, ps: seq<Patch>)
    ensures WriteAll(f, ps[..0]) == f
  {
  }

  lemma WriteAllSnoc(f: seq<byte>, ps: seq<Patch>, i: nat)
    requires i < |ps|
    ensures WriteAll(f, ps[..i + 1]) == WriteAt(WriteAll(f, ps[..i]), ps[i].offset, ps[i].data)
  {
    assert ps[..i + 1] == ps[..i] + [ps[i]];
    WriteAllConcat(f, ps[..i], [ps[i]]);
    hide WriteAt;
    assert WriteAll(WriteAll(f, ps[..i]), [ps[i]]) == WriteAt(WriteAll(f, ps[..i]), ps[i].offset, ps[i].data);
  }
}
