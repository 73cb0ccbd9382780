/** The server's side of one connection, as a function of the frames it receives
    (server/src/session.cpp). Protobuf coding is taken as lossless, with a separate message for a payload that
    does not parse. */
module Server {
  import opened Bytes
  import opened DeltaSync
  import opened Storage

  /** A divisor in the server's block arithmetic. */
  type BlockSize = n: nat | n > 0 witness 1

  datatype Msg =
    | ClientHello(blockSize: nat)
    | NegotiationRequest(path: Path, sha: string)
    | DownloadRequest(path: Path, offset: nat)
    | UploadRequest(path: Path, size: nat, sha: string)
    | SignatureRequest(path: Path, size: nat, bs: BlockSize, sigs: seq<Signature>)
    | BlockData(path: Path, block: Block)
    | ListRequest
    | RawData(data: seq<byte>)
    | Malformed
    | Unknown

  datatype FileMode = FRESH | MODIFIED | UNCHANGED

  datatype TransferMode = UNSPECIFIED | ZERO_COPY | DELTA_SYNC

  datatype Reply =
    | ServerHello(blockSize: nat)
    | NegotiationResponse(mode: FileMode, transfer: TransferMode, serverSize: nat, serverSha: string, blockSize: nat)
    | DownloadHeader(path: Path, totalSize: nat, sha: string, offset: nat)
    | RawReply(data: seq<byte>)
    | UploadAck
    | BlockRequest(path: Path, indices: seq<nat>)
    | Complete(path: Path, status: int, sha: string)
    | ListResponse
    | Error(code: int)
    | Progress(received: nat, total: nat)

  /** Answers of the clock and the file system while one frame is handled: has a millisecond passed, how does
      writing the temp file go, does it open again for the final check, does the rename succeed. */
  datatype Env = Env(ticked: bool, write: WriteIo, canCheck: bool, canRename: bool)

  predicate Reliable(e: Env) {
    e.write.Done? && e.canCheck && e.canRename
  }

  datatype Input = Input(msg: Msg, env: Env)

  datatype Upload = Upload(path: Path, total: nat, received: nat, buffer: seq<byte>)

  /** `upload` is present while the upload loop is reading frames. */
  datatype State = State(config: nat, blockSize: nat, upload: Option<Upload>, files: Files)

  datatype Out = Out(state: State, replies: seq<Reply>)

  const OK := 1
  const ERROR := 2
  const FILE_NOT_FOUND := 3
  const CHECKSUM_MISMATCH := 5
  const PROTOCOL_ERROR := 6

  predicate Reasonable(blockSize: nat) {
    4096 <= blockSize <= 1048576
  }

  function Negotiate(H: Hash, s: State, p: Path, clientSha: string): Reply {
    if p !in s.files then NegotiationResponse(FRESH, ZERO_COPY, 0, "", s.config) else
      var f := s.files[p];
      if clientSha != "" && clientSha == H(f) then NegotiationResponse(UNCHANGED, UNSPECIFIED, |f|, H(f), s.config)
      else NegotiationResponse(MODIFIED, DELTA_SYNC, |f|, H(f), s.config)
  }

  function Download(H: Hash, s: State, p: Path, offset: nat): seq<Reply> {
    if p !in s.files || offset >= |s.files[p]| then [Error(FILE_NOT_FOUND)] else
      var f := s.files[p];
      [DownloadHeader(p, |f|, H(f), offset), RawReply(f[offset..])]
  }

  function ServerFileAt(files: Files, p: Path): ServerFile {
    if p in files then Stable(files[p]) else Missing
  }

  /** `handle_block_data`: check, write, and publish on the block taken for the last one. */
  function BlockEffect(H: Hash, files: Files, p: Path, b: Block, isFinal: bool, env: Env): (Files, int) {
    if H(b.data) != b.strong then (files, CHECKSUM_MISMATCH)
    else if env.write.Refused? then (files, ERROR)
    else
      var written := WriteBlock(files, p, b.offset, Landed(b.data, env.write));
      if env.write.Cut? then (written, ERROR)
      else if !isFinal || !env.canCheck then (written, OK)
      else if env.canRename then (Publish(written, p), OK)
      else (written, ERROR)
  }

  function ReceiveBlock(H: Hash, s: State, p: Path, b: Block, env: Env): Out {
    var isFinal := |b.data| < s.blockSize;
    var (files, status) := BlockEffect(H, s.files, p, b, isFinal, env);
    Out(s.(files := files),
        if isFinal || status != OK
        then [Complete(p, status, if status == OK && p in files then H(files[p]) else "")]
        else [])
  }

  /** The end of the upload loop: save when exactly the declared number of octets arrived. */
  function FinishUpload(s: State, u: Upload, env: Env): Out {
    if u.received != u.total then Out(s.(upload := None), [])
    else if env.write.Refused? then Out(s.(upload := None), [Error(ERROR)])
    else
      var written := WriteFile(s.files, u.path, Landed(u.buffer, env.write));
      if env.write.Cut? then Out(s.(upload := None, files := written), [Error(ERROR)])
      else Out(s.(upload := None, files := if env.canRename then Publish(written, u.path) else written), [])
  }

  function ContinueUpload(s: State, u: Upload, env: Env): Out {
    if u.received < u.total then Out(s.(upload := Some(u)), []) else FinishUpload(s, u, env)
  }

  function UploadFrame(s: State, u: Upload, inp: Input): Out {
    if !inp.msg.RawData? then Out(s, []) else
      var u' := u.(buffer := u.buffer + inp.msg.data, received := u.received + |inp.msg.data|);
      var o := ContinueUpload(s, u', inp.env);
      Out(o.state, (if inp.env.ticked then [Progress(u'.received, u'.total)] else []) + o.replies)
  }

  function Dispatch(H: Hash, s: State, inp: Input): Out {
    match inp.msg
    case ClientHello(b) =>
      var n := if Reasonable(b) then b else s.blockSize;
      Out(s.(blockSize := n), [ServerHello(n)])
    case NegotiationRequest(p, sha) => Out(s, [Negotiate(H, s, p, sha)])
    case DownloadRequest(p, offset) => Out(s, Download(H, s, p, offset))
    case UploadRequest(p, n, _) =>
      var o := ContinueUpload(s, Upload(p, n, 0, []), inp.env);
      Out(o.state, [UploadAck] + o.replies)
    case SignatureRequest(p, n, bs, sigs) =>
      Out(s, [BlockRequest(p, RequestList(H, ServerFileAt(s.files, p), n, bs, sigs))])
    case BlockData(p, b) => ReceiveBlock(H, s, p, b, inp.env)
    case ListRequest => Out(s, [ListResponse])
    case _ => Out(s, [Error(PROTOCOL_ERROR)])
  }

  function Receive(H: Hash, s: State, inp: Input): Out {
    match s.upload
    case Some(u) => UploadFrame(s, u, inp)
    case None => Dispatch(H, s, inp)
  }

  /** Everything the server does with a sequence of frames. */
  function Serve(H: Hash, s: State, ins: seq<Input>): Out {
    if ins == [] then Out(s, []) else
      var o := Serve(H, s, ins[..|ins| - 1]);
      var r := Receive(H, o.state, ins[|ins| - 1]);
      Out(r.state, o.replies + r.replies)
  }

  /** The peer hangs up: a pending upload is abandoned with an error. */
  function HangUp(s: State): Out {
    Out(s.(upload := None), if s.upload.Some? then [Error(ERROR)] else [])
  }

  lemma {:induction false} ServeConcat(H: Hash, s: State, xs: seq<Input>, ys: seq<Input>)
    ensures var a := Serve(H, s, xs);
            var b := Serve(H, a.state, ys);
            Serve(H, s, xs + ys) == Out(b.state, a.replies + b.replies)
  {
    hide Receive;
    if ys == [] {
      assert xs + ys == xs;
    } else {
      ServeConcat(H, s, xs, ys[..|ys| - 1]);
      assert (xs + ys)[..|xs + ys| - 1] == xs + ys[..|ys| - 1];
    }
  }

  lemma ServeOne(H: Hash, s: State, x: Input)
    ensures Serve(H, s, [x]) == Receive(H, s, x)
  {
    hide Receive;
    assert [x][..0] == [];
  }

  lemma ServeCons(H: Hash, s: State, x: Input, ys: seq<Input>)
    ensures var a := Receive(H, s, x);
            var b := Serve(H, a.state, ys);
            Serve(H, s, [x] + ys) == Out(b.state, a.replies + b.replies)
  {
    ServeOne(H, s, x);
    ServeConcat(H, s, [x], ys);
  }

  // ---- Negotiation and errors ---------------------------------------------------------------

  /** A negotiation changes nothing and tells, exactly: whether the file is there, whether its digest is the one the client
      sent, which way to transfer it, its size, its digest, and the server's own block size. */
  lemma NegotiationTells(H: Hash, s: State, p: Path, sha: string, env: Env)
    requires s.upload.None?
    ensures var o := Receive(H, s, Input(NegotiationRequest(p, sha), env));
            && o.state == s && |o.replies| == 1 && o.replies[0].NegotiationResponse?
            && var r := o.replies[0];
               && (r.mode == FRESH <==> p !in s.files)
               && (r.mode == UNCHANGED <==> p in s.files && sha != "" && H(s.files[p]) == sha)
               && (r.transfer == DELTA_SYNC <==> r.mode == MODIFIED) && (r.transfer == ZERO_COPY <==> r.mode == FRESH)
               && r.serverSize == (if p in s.files then |s.files[p]| else 0)
               && r.serverSha == (if p in s.files then H(s.files[p]) else "")
               && r.blockSize == s.config
  {
  }

  /** Raw data out of place, unknown types and payloads that do not parse are answered with a protocol error. */
  lemma ProtocolErrors(H: Hash, s: State, inp: Input)
    requires s.upload.None? && (inp.msg.RawData? || inp.msg.Malformed? || inp.msg.Unknown?)
    ensures Receive(H, s, inp) == Out(s, [Error(6)])
  {
  }

  // ---- Handshake ---------------------------------------------------------------------------

  /** The block size the client reports in requests after the handshake. */
  function ClientBlockSize(constructed: nat, offered: nat): nat {
    if Reasonable(offered) then offered else constructed
  }

  /** The three block sizes of a connection - the one the client's engine was constructed with and keeps, the one it
      puts in requests, and the one the server finalises by - agree if and only if the constructed size is
      reasonable or happens to be the server's own. */
  lemma BlockSizesAgreeIff(H: Hash, s: State, constructed: nat, env: Env)
    requires s.upload.None?
    ensures var o := Receive(H, s, Input(ClientHello(constructed), env));
            && o.replies == [ServerHello(o.state.blockSize)]
            && (4096 <= constructed <= 1048576 ==> o.state.blockSize == constructed)
            && (!(4096 <= constructed <= 1048576) ==> o.state.blockSize == s.blockSize)
            && (4096 <= o.state.blockSize <= 1048576 ==> ClientBlockSize(constructed, o.state.blockSize) == o.state.blockSize)
            && (!(4096 <= o.state.blockSize <= 1048576) ==> ClientBlockSize(constructed, o.state.blockSize) == constructed)
            && (constructed == ClientBlockSize(constructed, o.state.blockSize) == o.state.blockSize
                <==> Reasonable(constructed) || constructed == s.blockSize)
  {
  }
}
