/** The delta-sync exchange: the client signs its blocks, the server asks for the ones it lacks, the client
    sends them. The strong hash is an arbitrary function, so nothing here rests on its being injective. */
module DeltaSync {
  import opened Bytes
  import opened Blocks
  import Adler32

  type Hash = seq<byte> -> string

  datatype Signature = Signature(index: nat, rolling: nat, strong: string, offset: nat, size: nat)

  datatype Block = Block(index: nat, offset: nat, data: seq<byte>, strong: string)

  /** The server's copy: what `get_file_size` reported, and what the file holds when block `i` is read. The file is opened
      anew for every block, and the read lock does not keep it from being replaced in between (see LockedFiles). */
  datatype ServerFile = Missing | Present(statSize: nat, during: nat -> seq<byte>)

  /** A copy that nobody replaces during the comparison. */
  function Stable(content: seq<byte>): ServerFile {
    Present(|content|, Still(content))
  }

  function Still(content: seq<byte>): nat -> seq<byte> {
    (i: nat) => content
  }

  // ---- Client: signatures -----------------------------------------------------------

  function SignatureOf(H: Hash, f: seq<byte>, bs: nat, i: nat): Signature
    requires HasBlock(|f|, bs, i)
  {
    var t := Tile(f, bs, i);
    Signature(i, Adler32.Checksum(t), H(t), i * bs, |t|)
  }

  ghost function Signatures(H: Hash, f: seq<byte>, bs: nat, n: nat): (s: seq<Signature>)
    requires bs > 0 && n <= BlockCount(|f|, bs)
    ensures |s| == n
    ensures forall i :: 0 <= i < n ==> HasBlock(|f|, bs, i) && s[i] == SignatureOf(H, f, bs, i)
  {
    if n == 0 then [] else
      BlockInRange(n - 1, |f|, bs);
      Signatures(H, f, bs, n - 1) + [SignatureOf(H, f, bs, n - 1)]
  }

  /** All signatures of a file, one per block that the 32-bit count reaches. */
  ghost function AllSignatures(H: Hash, f: seq<byte>, bs: nat): seq<Signature>
    requires bs > 0
  {
    CountNeverOvershoots(|f|, bs);
    Signatures(H, f, bs, BlockCount32(|f|, bs))
  }

  method ComputeSignatures(H: Hash, f: seq<byte>, bs: nat) returns (sigs: seq<Signature>)
    requires bs > 0
    ensures sigs == AllSignatures(H, f, bs)
  {
    CountNeverOvershoots(|f|, bs);
    var totalBlocks := BlockCount32(|f|, bs);
    hide BlockCount, BlockCount32, Adler32.Checksum;
    sigs := [];
    for i := 0 to totalBlocks
      invariant sigs == Signatures(H, f, bs, i)
    {
      BlockInRange(i, |f|, bs);
      var blockOffset := i * bs;
      var actualSize := if blockOffset + bs > |f| then |f| - blockOffset else bs;
      var data := ReadBlock(f, blockOffset, actualSize);
      ReadBlockIsTile(f, bs, i);
      var rolling := Adler32.Compute(data);
      sigs := sigs + [Signature(i, rolling, H(data), blockOffset, actualSize)];
    }
  }

  /** A signature numbered `i` that carries the two hashes of the octets of `f` between its offset and its end. */
  predicate Describes(H: Hash, f: seq<byte>, bs: nat, s: Signature, i: nat) {
    && s.index == i && 0 < s.size <= bs && s.offset + s.size <= |f|
    && s.strong == H(f[s.offset..s.offset + s.size]) && s.rolling == Adler32.Checksum(f[s.offset..s.offset + s.size])
  }

  /** The signatures number the blocks from zero, lie end to end, reach from the start of the file to its end, and each
      carries the hashes of the octets it spans. */
  lemma SignaturesDescribe(H: Hash, f: seq<byte>, bs: nat)
    requires Representable(|f|, bs)
    ensures var s := AllSignatures(H, f, bs);
            && (s == [] <==> f == [])
            && (s != [] ==> s[0].offset == 0 && s[|s| - 1].offset + s[|s| - 1].size == |f|)
            && (forall i :: 0 <= i < |s| - 1 ==> s[i + 1].offset == s[i].offset + s[i].size && s[i].size == bs)
            && forall i :: 0 <= i < |s| ==> Describes(H, f, bs, s[i], i)
  {
    var s := AllSignatures(H, f, bs);
    CountIsExact(|f|, bs);
    hide BlockCount32, BlockCount, Representable, SignatureOf, HasBlock, BlockLen, Describes;
    assert |s| == BlockCount(|f|, bs);
    BlockInRange(0, |f|, bs);
    FirstBlock(|f|, bs);
    forall i | 0 <= i < |s| ensures Describes(H, f, bs, s[i], i) { SignatureSpans(H, f, bs, i); }
    if s != [] {
      LastBlockEnds(|f|, bs);
      SignatureSpans(H, f, bs, 0);
      SignatureSpans(H, f, bs, |s| - 1);
    }
    forall i | 0 <= i < |s| - 1 ensures s[i + 1].offset == s[i].offset + s[i].size && s[i].size == bs {
      FullBefore(|f|, bs, i);
      SignatureSpans(H, f, bs, i);
      SignatureSpans(H, f, bs, i + 1);
    }
  }

  lemma FirstBlock(size: nat, bs: nat)
    ensures HasBlock(size, bs, 0) <==> size > 0
    ensures 0 * bs == 0
  {
  }

  lemma SignatureSpans(H: Hash, f: seq<byte>, bs: nat, i: nat)
    requires bs > 0 && HasBlock(|f|, bs, i)
    ensures var s := SignatureOf(H, f, bs, i);
            Describes(H, f, bs, s, i) && s.offset == i * bs && s.size == BlockLen(|f|, bs, i)
  {
    hide Adler32.Checksum;
  }

  lemma LastBlockEnds(size: nat, bs: nat)
    requires bs > 0 && BlockCount(size, bs) > 0
    ensures var i := BlockCount(size, bs) - 1; HasBlock(size, bs, i) && i * bs + BlockLen(size, bs, i) == size
  {
    var i := BlockCount(size, bs) - 1;
    hide BlockCount;
    BlockInRange(i, size, bs);
    BlockInRange(i + 1, size, bs);
    assert (i + 1) * bs == i * bs + bs;
  }

  lemma FullBefore(size: nat, bs: nat, i: nat)
    requires bs > 0 && i + 1 < BlockCount(size, bs)
    ensures HasBlock(size, bs, i) && BlockLen(size, bs, i) == bs && (i + 1) * bs == i * bs + bs
  {
    hide BlockCount;
    BlockInRange(i + 1, size, bs);
    BlockInRange(i, size, bs);
    assert (i + 1) * bs == i * bs + bs;
  }

  // ---- Server: which blocks to ask for ------------------------------------------------

  /** The signature on file for an index: the last one sent wins. */
  function SignatureFor(sigs: seq<Signature>, i: nat): Option<Signature> {
    if sigs == [] then None
    else if sigs[|sigs| - 1].index == i then Some(sigs[|sigs| - 1])
    else SignatureFor(sigs[..|sigs| - 1], i)
  }

  /** The server's own block carries the client's signature. */
  predicate SameSignature(H: Hash, data: seq<byte>, sigs: seq<Signature>, i: nat) {
    && data != []
    && var s := SignatureFor(sigs, i);
       s.Some? && s.value.rolling == Adler32.Checksum(data) && s.value.strong == H(data)
  }

  /** Block `i` as the server reads it back from its own file. */
  function StoredBlock(server: ServerFile, bs: nat, i: nat): seq<byte>
    requires server.Present? && HasBlock(server.statSize, bs, i)
  {
    ReadBlock(server.during(i), i * bs, BlockLen(server.statSize, bs, i))
  }

  /** Block `i` has to be sent: it lies past the server's file, or the server's block does not match. */
  predicate Wanted(H: Hash, server: ServerFile, bs: nat, sigs: seq<Signature>, i: nat)
    requires bs > 0
  {
    server.Missing?
    || i >= BlockCount32(server.statSize, bs)
    || !HasBlock(server.statSize, bs, i)
    || !SameSignature(H, StoredBlock(server, bs, i), sigs, i)
  }

  function LastIndex(server: ServerFile, clientSize: nat, bs: nat): nat
    requires bs > 0
  {
    var clientBlocks := BlockCount32(clientSize, bs);
    if server.Missing? then clientBlocks else Max(BlockCount32(server.statSize, bs), clientBlocks)
  }

  function WantedBelow(H: Hash, server: ServerFile, bs: nat, sigs: seq<Signature>, n: nat): seq<nat>
    requires bs > 0
  {
    if n == 0 then [] else
      WantedBelow(H, server, bs, sigs, n - 1) + if Wanted(H, server, bs, sigs, n - 1) then [n - 1] else []
  }

  function RequestList(H: Hash, server: ServerFile, clientSize: nat, bs: nat, sigs: seq<Signature>): seq<nat>
    requires bs > 0
  {
    WantedBelow(H, server, bs, sigs, LastIndex(server, clientSize, bs))
  }

  method IndexSignatures(sigs: seq<Signature>) returns (m: map<nat, Signature>)
    ensures forall i: nat :: SignatureFor(sigs, i) == if i in m then Some(m[i]) else None
  {
    m := map[];
    for k := 0 to |sigs|
      invariant forall i: nat :: SignatureFor(sigs[..k], i) == if i in m then Some(m[i]) else None
    {
      assert sigs[..k + 1][..k] == sigs[..k];
      m := m[sigs[k].index := sigs[k]];
    }
    assert sigs[..|sigs|] == sigs;
  }

  /** One comparison of the server's block `i` with the client's signature for it. */
  method CompareBlock(H: Hash, data: seq<byte>, ghost sigs: seq<Signature>, clientMap: map<nat, Signature>, i: nat)
    returns (same: bool)
    requires SignatureFor(sigs, i) == if i in clientMap then Some(clientMap[i]) else None
    ensures same <==> SameSignature(H, data, sigs, i)
  {
    if data == [] {
      return false;
    }
    var serverRolling := Adler32.Compute(data);
    var serverStrong := H(data);
    if i !in clientMap {
      return false;
    }
    return !(clientMap[i].rolling != serverRolling || clientMap[i].strong != serverStrong);
  }

  method ReadStoredBlock(server: ServerFile, bs: nat, i: nat) returns (data: seq<byte>)
    requires server.Present? && HasBlock(server.statSize, bs, i)
    ensures data == StoredBlock(server, bs, i)
  {
    var blockOffset := i * bs;
    var actualSize := Min(bs, server.statSize - blockOffset);
    data := ReadBlock(server.during(i), blockOffset, actualSize);
  }

  /** The comparison loop over the blocks the server has. */
  method CompareStoredBlocks(H: Hash, server: ServerFile, bs: nat, sigs: seq<Signature>, serverBlocks: nat)
    returns (requested: seq<nat>)
    requires bs > 0 && server.Present? && serverBlocks == BlockCount32(server.statSize, bs)
    ensures requested == WantedBelow(H, server, bs, sigs, serverBlocks)
  {
    hide BlockCount32, SameSignature, WantedBelow, Wanted, StoredBlock, HasBlock;
    requested := [];
    WantedStep(H, server, bs, sigs, 0);
    var clientMap := IndexSignatures(sigs);
    for i := 0 to serverBlocks
      invariant requested == WantedBelow(H, server, bs, sigs, i)
    {
      WantedStep(H, server, bs, sigs, i);
      var blockData := ReadStoredBlock(server, bs, i);
      var same := CompareBlock(H, blockData, sigs, clientMap, i);
      if !same {
        requested := requested + [i];
      }
    }
  }

  method HandleSignatureRequest(H: Hash, server: ServerFile, clientSize: nat, bs: nat, sigs: seq<Signature>)
    returns (requested: seq<nat>)
    requires bs > 0
    ensures requested == RequestList(H, server, clientSize, bs, sigs)
  {
    hide BlockCount32, WantedBelow, Wanted, HasBlock;
    var clientBlocks := BlockCount32(clientSize, bs);
    var next := 0;
    requested := [];
    if server.Present? {
      next := BlockCount32(server.statSize, bs);
      requested := CompareStoredBlocks(H, server, bs, sigs, next);
    }
    WantedStep(H, server, bs, sigs, 0);
    while next < clientBlocks
      invariant requested == WantedBelow(H, server, bs, sigs, next)
      invariant next <= LastIndex(server, clientSize, bs)
      invariant server.Present? ==> BlockCount32(server.statSize, bs) <= next
    {
      WantedStep(H, server, bs, sigs, next);
      requested := requested + [next];
      next := next + 1;
    }
  }

  lemma WantedStep(H: Hash, server: ServerFile, bs: nat, sigs: seq<Signature>, i: nat)
    requires bs > 0
    ensures WantedBelow(H, server, bs, sigs, 0) == []
    ensures WantedBelow(H, server, bs, sigs, i + 1)
         == WantedBelow(H, server, bs, sigs, i) + if Wanted(H, server, bs, sigs, i) then [i] else []
    ensures server.Present? && i < BlockCount32(server.statSize, bs) ==>
              && HasBlock(server.statSize, bs, i)
              && (Wanted(H, server, bs, sigs, i) <==> !SameSignature(H, StoredBlock(server, bs, i), sigs, i))
    ensures server.Missing? || i >= BlockCount32(server.statSize, bs) ==> Wanted(H, server, bs, sigs, i)
  {
    hide SameSignature, StoredBlock, BlockCount32;
    if server.Present? {
      CountNeverOvershoots(server.statSize, bs);
      BlockInRange(i, server.statSize, bs);
    }
  }

  /** The last signature with index `i`, if there is one. */
  predicate LastFor(sigs: seq<Signature>, i: nat, j: nat) {
    j < |sigs| && sigs[j].index == i && forall m :: j < m < |sigs| ==> sigs[m].index != i
  }

  lemma {:induction false} SignatureForIsLast(sigs: seq<Signature>, i: nat)
    ensures SignatureFor(sigs, i).None? <==> forall j :: 0 <= j < |sigs| ==> sigs[j].index != i
    ensures forall j: nat :: LastFor(sigs, i, j) ==> SignatureFor(sigs, i) == Some(sigs[j])
    ensures SignatureFor(sigs, i).Some? ==> exists j: nat :: LastFor(sigs, i, j)
  {
    if sigs != [] {
      var n := |sigs| - 1;
      var init := sigs[..n];
      SignatureForIsLast(init, i);
      if sigs[n].index == i {
        assert LastFor(sigs, i, n);
      } else {
        forall j: nat ensures LastFor(sigs, i, j) <==> LastFor(init, i, j) { LastForPrefix(sigs, i, j); }
        hide LastFor;
        assert SignatureFor(sigs, i) == SignatureFor(init, i);
        assert forall j: nat :: j < n ==> init[j] == sigs[j];
        LastForBounds(init, i);
      }
    }
  }

  lemma LastForBounds(sigs: seq<Signature>, i: nat)
    ensures forall j: nat :: LastFor(sigs, i, j) ==> j < |sigs|
  {
  }

  lemma LastForPrefix(sigs: seq<Signature>, i: nat, j: nat)
    requires sigs != [] && sigs[|sigs| - 1].index != i
    ensures LastFor(sigs, i, j) <==> LastFor(sigs[..|sigs| - 1], i, j)
  {
    var init := sigs[..|sigs| - 1];
    assert forall m :: 0 <= m < |init| ==> init[m] == sigs[m];
  }

  /** The last signature that the client sent for block `i` carries the two hashes of `data`. */
  ghost predicate SomeSignatureMatches(H: Hash, data: seq<byte>, sigs: seq<Signature>, i: nat) {
    exists j: nat :: LastFor(sigs, i, j) && sigs[j].rolling == Adler32.Checksum(data) && sigs[j].strong == H(data)
  }

  /** The request in terms of what is read and what was sent, for arbitrary signatures and a file that may change between
      reads: block `i` is asked for unless the server has it, can read something of it, and the last signature with that
      index carries the hashes of what it read. */
  lemma RequestMeans(H: Hash, server: ServerFile, size: nat, bs: nat, sigs: seq<Signature>, i: nat)
    requires bs > 0 && server.Present?
    ensures var n := BlockCount32(server.statSize, bs);
            && (i < n ==> HasBlock(server.statSize, bs, i))
            && (i in RequestList(H, server, size, bs, sigs) <==>
                  && (i < n || i < BlockCount32(size, bs))
                  && !(i < n && var data := ReadBlock(server.during(i), i * bs, BlockLen(server.statSize, bs, i));
                               data != [] && SomeSignatureMatches(H, data, sigs, i)))
  {
    WantedBelowFacts(H, server, bs, sigs, LastIndex(server, size, bs));
    WantedStep(H, server, bs, sigs, i);
    hide WantedBelow, Wanted, BlockCount32, HasBlock, BlockLen, ReadBlock, Adler32.Checksum;
    SignatureForIsLast(sigs, i);
  }

  ghost predicate StrictlyIncreasing(s: seq<nat>) {
    forall i, j :: 0 <= i < j < |s| ==> s[i] < s[j]
  }

  lemma {:induction false} WantedBelowFacts(H: Hash, server: ServerFile, bs: nat, sigs: seq<Signature>, n: nat)
    requires bs > 0
    ensures var w := WantedBelow(H, server, bs, sigs, n);
            && StrictlyIncreasing(w)
            && forall i :: i in w <==> 0 <= i < n && Wanted(H, server, bs, sigs, i)
  {
    hide Wanted;
    if n > 0 {
      WantedBelowFacts(H, server, bs, sigs, n - 1);
      var w := WantedBelow(H, server, bs, sigs, n - 1);
      forall j | 0 <= j < |w| ensures w[j] < n - 1 { assert w[j] in w; }
    }
  }

  /** The request the server sends for client file `C` when it stores `S`. */
  ghost function RequestFor(H: Hash, C: seq<byte>, S: seq<byte>, bs: nat): seq<nat>
    requires bs > 0
  {
    RequestList(H, Stable(S), |C|, bs, AllSignatures(H, C, bs))
  }

  /** Minimality and order: the request is strictly increasing and names a block exactly when it lies outside one
      of the two files or the signatures differ. */
  lemma RequestIsMinimal(H: Hash, C: seq<byte>, S: seq<byte>, bs: nat)
    requires Representable(|C|, bs) && Representable(|S|, bs)
    ensures StrictlyIncreasing(RequestFor(H, C, S, bs))
    ensures forall i: nat :: i in RequestFor(H, C, S, bs) <==>
              i < Max(BlockCount(|S|, bs), BlockCount(|C|, bs)) && DiffersAt(H, C, S, bs, i)
  {
    CountIsExact(|C|, bs);
    CountIsExact(|S|, bs);
    hide Wanted, DiffersAt, BlockCount, BlockCount32, AllSignatures, WantedBelow;
    WantedBelowFacts(H, Stable(S), bs, AllSignatures(H, C, bs), LastIndex(Stable(S), |C|, bs));
    forall i: nat ensures Wanted(H, Stable(S), bs, AllSignatures(H, C, bs), i) <==> DiffersAt(H, C, S, bs, i) {
      WantedIffDiffers(H, C, S, bs, i);
    }
  }

  /** A file the server lacks is asked for in full if and only if its size is representable. */
  lemma AllAskedForIff(H: Hash, size: nat, bs: nat, sigs: seq<Signature>)
    requires 0 < bs < TWO32
    ensures (forall i: nat :: HasBlock(size, bs, i) ==> i in RequestList(H, Missing, size, bs, sigs))
            <==> Representable(size, bs)
  {
    var n, m := BlockCount32(size, bs), BlockCount(size, bs);
    WantedBelowFacts(H, Missing, bs, sigs, n);
    CountIsExactIff(size, bs);
    CountNeverOvershoots(size, bs);
    forall i: nat ensures i < m <==> HasBlock(size, bs, i) { BlockInRange(i, size, bs); }
    hide BlockCount, BlockCount32, Representable, HasBlock, WantedBelow;
    if n < m {
      assert HasBlock(size, bs, n);
    }
  }

  /** The 32-bit block count wraps: a file of exactly 2^32 blocks is never asked for. */
  lemma WrappedCountAsksForNothing(H: Hash, bs: nat, sigs: seq<Signature>)
    requires 0 < bs < TWO32
    ensures RequestList(H, Missing, TWO32 * bs, bs, sigs) == []
  {
    var x := TWO32 * bs + bs - 1;
    assert x < TWO64 by { MulMono(TWO32, bs, TWO32 - 1); }
    DivUnique(x, bs, TWO32, bs - 1);
  }

  /** The two files have no block `i` in common with the same pair of hashes. */
  predicate DiffersAt(H: Hash, C: seq<byte>, S: seq<byte>, bs: nat, i: nat) {
    HasBlock(|S|, bs, i) && HasBlock(|C|, bs, i) ==>
      Adler32.Checksum(Tile(S, bs, i)) != Adler32.Checksum(Tile(C, bs, i)) || H(Tile(S, bs, i)) != H(Tile(C, bs, i))
  }

  lemma {:induction false} SignatureForNumbered(sigs: seq<Signature>, i: nat)
    requires forall j :: 0 <= j < |sigs| ==> sigs[j].index == j
    ensures SignatureFor(sigs, i) == if i < |sigs| then Some(sigs[i]) else None
  {
    if sigs != [] {
      SignatureForNumbered(sigs[..|sigs| - 1], i);
    }
  }

  lemma WantedIffDiffers(H: Hash, C: seq<byte>, S: seq<byte>, bs: nat, i: nat)
    requires Representable(|C|, bs) && Representable(|S|, bs)
    ensures Wanted(H, Stable(S), bs, AllSignatures(H, C, bs), i) <==> DiffersAt(H, C, S, bs, i)
  {
    CountIsExact(|C|, bs);
    CountIsExact(|S|, bs);
    BlockInRange(i, |C|, bs);
    BlockInRange(i, |S|, bs);
    SignatureForNumbered(AllSignatures(H, C, bs), i);
    hide BlockCount, BlockCount32, Representable, Adler32.Checksum;
    if HasBlock(|S|, bs, i) {
      ReadBlockIsTile(S, bs, i);
    }
  }

  // ---- Client: sending the requested blocks ------------------------------------------------

  function BlockOf(H: Hash, f: seq<byte>, bs: nat, i: nat): Block
    requires HasBlock(|f|, bs, i)
  {
    Block(i, i * bs, Tile(f, bs, i), H(Tile(f, bs, i)))
  }

  /** The indices the client keeps: those that fall inside its file, in the order asked. */
  function Kept(order: seq<nat>, size: nat, bs: nat): seq<nat> {
    if order == [] then []
    else if HasBlock(size, bs, order[0]) then [order[0]] + Kept(order[1..], size, bs)
    else Kept(order[1..], size, bs)
  }

  lemma {:induction false} KeptFacts(order: seq<nat>, size: nat, bs: nat)
    ensures InFile(Kept(order, size, bs), size, bs)
    ensures forall i :: i in Kept(order, size, bs) <==> i in order && HasBlock(size, bs, i)
    ensures StrictlyIncreasing(order) ==> StrictlyIncreasing(Kept(order, size, bs))
  {
    hide HasBlock;
    if order != [] {
      KeptFacts(order[1..], size, bs);
      var k := Kept(order[1..], size, bs);
      forall j | 0 <= j < |k| ensures k[j] in order[1..] { assert k[j] in k; }
    }
  }

  ghost function BlocksFor(H: Hash, f: seq<byte>, bs: nat, order: seq<nat>): (b: seq<Block>)
    requires InFile(order, |f|, bs)
    ensures |b| == |order|
    ensures forall j :: 0 <= j < |order| ==> HasBlock(|f|, bs, order[j]) && b[j] == BlockOf(H, f, bs, order[j])
  {
    if order == [] then [] else
      assert HasBlock(|f|, bs, order[0]);
      [BlockOf(H, f, bs, order[0])] + BlocksFor(H, f, bs, order[1..])
  }

  /** What the client sends in answer to a request, whatever the server asked for. */
  ghost function Sent(H: Hash, f: seq<byte>, bs: nat, requested: seq<nat>): seq<Block> {
    KeptFacts(requested, |f|, bs);
    BlocksFor(H, f, bs, Kept(requested, |f|, bs))
  }

  method ReadRequestedBlocks(H: Hash, f: seq<byte>, bs: nat, requested: seq<nat>) returns (blocks: seq<Block>)
    ensures blocks == Sent(H, f, bs, requested)
  {
    blocks := [];
    for j := 0 to |requested|
      invariant blocks == Sent(H, f, bs, requested[..j])
    {
      SentStep(H, f, bs, requested, j);
      var blockIndex := requested[j];
      var blockOffset := blockIndex * bs;
      if blockOffset >= |f| {
        continue;
      }
      var actualSize := if blockOffset + bs > |f| then |f| - blockOffset else bs;
      var data := ReadBlock(f, blockOffset, actualSize);
      ReadBlockIsTile(f, bs, blockIndex);
      blocks := blocks + [Block(blockIndex, blockOffset, data, H(data))];
    }
    assert requested[..|requested|] == requested;
  }

  /** A block of `f` at its index times the block size, as long as a block or up to the end of the file, with its hash. */
  predicate TrueBlock(H: Hash, f: seq<byte>, bs: nat, b: Block) {
    && b.offset == b.index * bs && (bs > 0 ==> b.data != []) && |b.data| <= bs
    && b.offset + |b.data| <= |f| && (|b.data| == bs || b.offset + |b.data| == |f|)
    && b.data == f[b.offset..b.offset + |b.data|] && b.strong == H(b.data)
  }

  /** Every block that is sent was asked for and is true to the file. */
  lemma SentBlocksAreTrue(H: Hash, f: seq<byte>, bs: nat, requested: seq<nat>)
    ensures forall b :: b in Sent(H, f, bs, requested) ==> b.index in requested && TrueBlock(H, f, bs, b)
  {
    hide Kept, TrueBlock, BlockOf, HasBlock;
    KeptFacts(requested, |f|, bs);
    var kept := Kept(requested, |f|, bs);
    var blocks := BlocksFor(H, f, bs, kept);
    forall j | 0 <= j < |blocks| ensures blocks[j].index in requested && TrueBlock(H, f, bs, blocks[j]) {
      assert kept[j] in kept;
      BlockIsTrue(H, f, bs, kept[j]);
    }
  }

  lemma BlockIsTrue(H: Hash, f: seq<byte>, bs: nat, i: nat)
    requires HasBlock(|f|, bs, i)
    ensures BlockOf(H, f, bs, i).index == i && TrueBlock(H, f, bs, BlockOf(H, f, bs, i))
  {
  }

  lemma {:induction false} KeptSnoc(order: seq<nat>, i: nat, size: nat, bs: nat)
    ensures Kept(order + [i], size, bs) == Kept(order, size, bs) + if HasBlock(size, bs, i) then [i] else []
  {
    hide HasBlock;
    if order == [] {
      assert order + [i] == [i];
    } else {
      assert (order + [i])[1..] == order[1..] + [i];
      KeptSnoc(order[1..], i, size, bs);
    }
  }

  lemma SentStep(H: Hash, f: seq<byte>, bs: nat, requested: seq<nat>, j: nat)
    requires j < |requested|
    ensures Sent(H, f, bs, requested[..j + 1]) ==
              Sent(H, f, bs, requested[..j])
              + if HasBlock(|f|, bs, requested[j]) then [BlockOf(H, f, bs, requested[j])] else []
  {
    hide HasBlock, Kept, BlockOf;
    assert requested[..j + 1] == requested[..j] + [requested[j]];
    KeptFacts(requested[..j], |f|, bs);
    KeptSnoc(requested[..j], requested[j], |f|, bs);
    if HasBlock(|f|, bs, requested[j]) {
      BlocksForSnoc(H, f, bs, Kept(requested[..j], |f|, bs), requested[j]);
    }
  }

  lemma BlocksForSnoc(H: Hash, f: seq<byte>, bs: nat, order: seq<nat>, i: nat)
    requires InFile(order, |f|, bs) && HasBlock(|f|, bs, i)
    ensures InFile(order + [i], |f|, bs)
    ensures BlocksFor(H, f, bs, order + [i]) == BlocksFor(H, f, bs, order) + [BlockOf(H, f, bs, i)]
  {
  }

  ghost function Patches(blocks: seq<Block>): (ps: seq<Patch>)
    ensures |ps| == |blocks|
    ensures forall j :: 0 <= j < |blocks| ==> ps[j] == Patch(blocks[j].offset, blocks[j].data)
  {
    seq(|blocks|, j requires 0 <= j < |blocks| => Patch(blocks[j].offset, blocks[j].data))
  }

  lemma SentPatches(H: Hash, f: seq<byte>, bs: nat, requested: seq<nat>)
    ensures InFile(Kept(requested, |f|, bs), |f|, bs)
    ensures Patches(Sent(H, f, bs, requested)) == Tiles(f, bs, Kept(requested, |f|, bs))
  {
    KeptFacts(requested, |f|, bs);
  }

  // ---- Conservation: octets on the wire -----------------------------------------------------

  ghost function BytesIn(blocks: seq<Block>): nat {
    if blocks == [] then 0 else |blocks[0].data| + BytesIn(blocks[1..])
  }

  ghost function BytesWanted(requested: seq<nat>, size: nat, bs: nat): nat {
    if requested == [] then 0 else
      (if HasBlock(size, bs, requested[0]) then BlockLen(size, bs, requested[0]) else 0)
      + BytesWanted(requested[1..], size, bs)
  }

  lemma {:induction false} BytesSent(H: Hash, f: seq<byte>, bs: nat, requested: seq<nat>)
    ensures BytesIn(Sent(H, f, bs, requested)) == BytesWanted(requested, |f|, bs)
  {
    if requested != [] {
      BytesSent(H, f, bs, requested[1..]);
      KeptFacts(requested, |f|, bs);
      KeptFacts(requested[1..], |f|, bs);
      if HasBlock(|f|, bs, requested[0]) {
        assert Kept(requested, |f|, bs)[1..] == Kept(requested[1..], |f|, bs);
      }
    }
  }

  // ---- Sufficiency -----------------------------------------------------------------------------

  /** Two different blocks with the same Adler-32 and the same strong hash. */
  predicate Collision(H: Hash, C: seq<byte>, S: seq<byte>, bs: nat, i: nat) {
    && HasBlock(|C|, bs, i) && HasBlock(|S|, bs, i)
    && Tile(C, bs, i) != Tile(S, bs, i)
    && Adler32.Checksum(Tile(C, bs, i)) == Adler32.Checksum(Tile(S, bs, i))
    && H(Tile(C, bs, i)) == H(Tile(S, bs, i))
  }

  function Resized(f: seq<byte>, n: nat): (r: seq<byte>)
    ensures |r| == n
  {
    if n <= |f| then f[..n] else f + Zeros(n - |f|)
  }

  lemma RequestedIff(H: Hash, C: seq<byte>, S: seq<byte>, bs: nat, i: nat)
    requires Representable(|C|, bs) && Representable(|S|, bs) && HasBlock(|C|, bs, i)
    ensures i in Kept(RequestFor(H, C, S, bs), |C|, bs) <==> DiffersAt(H, C, S, bs, i)
  {
    KeptFacts(RequestFor(H, C, S, bs), |C|, bs);
    RequestIsMinimal(H, C, S, bs);
    BlockInRange(i, |C|, bs);
  }

  /** Where no block was sent, the server's own octets are the client's, or the block is a collision. */
  lemma UnsentPosition(H: Hash, C: seq<byte>, S: seq<byte>, bs: nat, i: nat, k: nat)
    requires Representable(|C|, bs) && Representable(|S|, bs)
    requires k < |C| && At(bs, i, k) && i !in Kept(RequestFor(H, C, S, bs), |C|, bs)
    ensures (k < |S| && S[k] == C[k]) || Collision(H, C, S, bs, i)
  {
    PositionHasBlock(C, bs, i, k);
    RequestedIff(H, C, S, bs, i);
    hide RequestFor, At, Kept, BlockCount, Adler32.Checksum;
    if Tile(C, bs, i) == Tile(S, bs, i) {
      TilePosition(S, bs, i, k);
    }
  }

  lemma TilePosition(f: seq<byte>, bs: nat, i: nat, k: nat)
    requires HasBlock(|f|, bs, i) && i * bs <= k < i * bs + |Tile(f, bs, i)|
    ensures k < |f| && f[k] == Tile(f, bs, i)[k - i * bs]
  {
  }

  /** Sufficiency: the blocks the client sends, laid over the server's file resized to the client's length, give
      exactly the client's file; or else there are two different blocks with equal Adler-32 and equal strong hash.
      Holds for growth, shrinkage and short last blocks on either side. */
  lemma DeltaSuffices(H: Hash, C: seq<byte>, S: seq<byte>, bs: nat)
    requires Representable(|C|, bs) && Representable(|S|, bs)
    ensures WriteAll(Resized(S, |C|), Patches(Sent(H, C, bs, RequestFor(H, C, S, bs)))) == C
            || exists i :: Collision(H, C, S, bs, i)
  {
    if forall i :: !Collision(H, C, S, bs, i) {
      var req := RequestFor(H, C, S, bs);
      var kept := Kept(req, |C|, bs);
      SentPatches(H, C, bs, req);
      hide WriteAll, RequestFor, Collision, At, HasBlock, Kept;
      var ps := Tiles(C, bs, kept);
      var r := WriteAll(Resized(S, |C|), ps);
      PiecesLength(Resized(S, |C|), ps, C);
      forall k: nat | k < |C| ensures r[k] == C[k] {
        WriteAllPieces(Resized(S, |C|), ps, C, k);
        var i := BlockOfPosition(k, bs);
        TilesCover(C, bs, kept, i, k);
        if i !in kept {
          UnsentPosition(H, C, S, bs, i, k);
        }
      }
    }
  }
}
