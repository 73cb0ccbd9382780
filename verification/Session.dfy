/** The session and delta-sync objects, whose methods update their fields frame by frame; each is proved against
    the functions of module Server. */
module SessionObject {
  import opened Bytes
  import opened DeltaSync
  import opened Storage
  import opened Server

  // ---- DeltaSyncHandler ------------------------------------------------------------------------

  /** Which blocks of which path have been received and not yet finalised. */
  function Track(m: map<Path, set<nat>>, p: Path, i: nat): (r: map<Path, set<nat>>)
    ensures forall q, j :: (q in r && j in r[q]) <==> (q in m && j in m[q]) || (q == p && j == i)
  {
    m[p := (if p in m then m[p] else {}) + {i}]
  }

  class DeltaSyncHandler {
    const H: Hash
    const fm: FileManager
    var inProgress: map<Path, set<nat>>

    constructor (H: Hash, fm: FileManager)
      ensures this.H == H && this.fm == fm && inProgress == map[]
    {
      this.H, this.fm, inProgress := H, fm, map[];
    }

    method HandleBlockData(p: Path, b: Block, isFinal: bool, env: Env) returns (status: int)
      modifies this, fm
      ensures (fm.files, status) == BlockEffect(H, old(fm.files), p, b, isFinal, env)
      ensures inProgress ==
                if status == CHECKSUM_MISMATCH || !env.write.Done? then old(inProgress)
                else if isFinal && status == OK then old(inProgress) - {p}
                else Track(old(inProgress), p, b.index)
    {
      var computed := H(b.data);
      if computed != b.strong {
        return CHECKSUM_MISMATCH;
      }
      var ok := fm.WriteBlockAtomic(p, b.offset, b.data, env.write);
      if !ok {
        return ERROR;
      }
      inProgress := inProgress[p := (if p in inProgress then inProgress[p] else {}) + {b.index}];
      if isFinal {
        if env.canCheck {
          var renamed := fm.AtomicRenameTmp(p, env.canRename);
          if !renamed {
            return ERROR;
          }
        }
        inProgress := inProgress - {p};
      }
      return OK;
    }
  }

  // ---- Session ------------------------------------------------------------------------------------

  datatype Phase = AwaitingHello | Ready | Negotiating | Transferring | Disconnected

  lemma ContinueIgnoresPending(s: State, pending: Option<Upload>, u: Upload, env: Env)
    ensures ContinueUpload(s.(upload := pending), u, env) == ContinueUpload(s, u, env)
  {
  }

  lemma UploadBegins(H: Hash, s: State, p: Path, size: nat, sha: string, env: Env)
    requires s.upload.None?
    ensures var o := ContinueUpload(s, Upload(p, size, 0, []), env);
            Serve(H, s, [Input(UploadRequest(p, size, sha), env)]) == Out(o.state, [UploadAck] + o.replies)
  {
    ServeOne(H, s, Input(UploadRequest(p, size, sha), env));
    hide Serve;
  }

  /** Saving after the loop, whether it ended by itself or the peer hung up. */
  lemma UploadEnds(s: State, u: Upload, last: Env)
    requires s.upload.None?
    ensures var c, f := ContinueUpload(s, u, last), FinishUpload(s, u, last);
            && HangUp(c.state).state == f.state
            && if u.received < u.total
               then c.state.upload.Some? && c.replies == f.replies == [] && HangUp(c.state).replies == [Error(ERROR)]
               else c.state.upload.None? && c.replies == f.replies && HangUp(c.state).replies == []
  {
  }

  /** Serving a prefix that ends in the middle of the upload loop, extended by one more frame. */
  lemma UploadLoopStep(H: Hash, s: State, done: seq<Input>, u: Upload, f: Input)
    requires u.received < u.total
    requires Serve(H, s, done).state == s.(upload := Some(u))
    ensures var u' := if f.msg.RawData? then u.(buffer := u.buffer + f.msg.data, received := u.received + |f.msg.data|) else u;
            var o := ContinueUpload(s, u', f.env);
            var progress := if f.msg.RawData? && f.env.ticked then [Progress(u'.received, u'.total)] else [];
            Serve(H, s, done + [f]) == Out(o.state, Serve(H, s, done).replies + progress + o.replies)
  {
    ServeConcat(H, s, done, [f]);
    ServeOne(H, s.(upload := Some(u)), f);
    hide Serve, Dispatch;
    if f.msg.RawData? {
      ContinueIgnoresPending(s, Some(u), u.(buffer := u.buffer + f.msg.data, received := u.received + |f.msg.data|), f.env);
    }
  }

  class Session {
    const H: Hash
    const config: nat
    const fm: FileManager
    const handler: DeltaSyncHandler
    var phase: Phase
    var blockSize: nat
    var uploadState: Upload
    var inbox: seq<Input>
    var sent: seq<Reply>

    ghost predicate Valid()
    {
      handler.H == H && handler.fm == fm
    }

    ghost function Abs(): State
      reads this, fm
    {
      State(config, blockSize, None, fm.files)
    }

    constructor (H: Hash, fm: FileManager, blockSize: nat, inbox: seq<Input>)
      ensures Valid() && Abs() == State(blockSize, blockSize, None, fm.files)
      ensures this.H == H && this.fm == fm && this.inbox == inbox && sent == [] && phase == AwaitingHello
      ensures fresh(handler)
    {
      this.H, this.config, this.fm, this.blockSize := H, blockSize, fm, blockSize;
      phase, this.inbox, sent, uploadState := AwaitingHello, inbox, [], Upload("", 0, 0, []);
      handler := new DeltaSyncHandler(H, fm);
    }

    method HandleClientHello(clientBlockSize: nat)
      modifies this
      ensures inbox == old(inbox) && phase == Ready
      ensures blockSize == if Reasonable(clientBlockSize) then clientBlockSize else old(blockSize)
      ensures sent == old(sent) + [ServerHello(blockSize)]
    {
      if clientBlockSize >= 4096 && clientBlockSize <= 1048576 {
        blockSize := clientBlockSize;
      }
      sent := sent + [ServerHello(blockSize)];
      phase := Ready;
    }

    method HandleSignatureRequest(p: Path, size: nat, bs: BlockSize, sigs: seq<Signature>)
      modifies this
      ensures inbox == old(inbox) && phase == Ready && blockSize == old(blockSize)
      ensures sent == old(sent) + [BlockRequest(p, RequestList(H, ServerFileAt(fm.files, p), size, bs, sigs))]
    {
      phase := Negotiating;
      var server := if p in fm.files then Stable(fm.files[p]) else Missing;
      var requested := DeltaSync.HandleSignatureRequest(H, server, size, bs, sigs);
      sent := sent + [BlockRequest(p, requested)];
      phase := Ready;
    }

    method HandleBlockData(p: Path, b: Block, env: Env)
      requires Valid()
      modifies this, fm, handler
      ensures inbox == old(inbox) && phase == Ready
      ensures var o := ReceiveBlock(H, old(Abs()), p, b, env); Abs() == o.state && sent == old(sent) + o.replies
    {
      phase := Transferring;
      var isFinal := |b.data| < blockSize;
      var status := handler.HandleBlockData(p, b, isFinal, env);
      if isFinal || status != OK {
        var sha := if status == OK && p in fm.files then H(fm.files[p]) else "";
        sent := sent + [Complete(p, status, sha)];
      }
      phase := Ready;
    }

    /** "Verify and save": the declared digest is not looked at. */
    method SaveUpload(last: Env)
      modifies this, fm
      ensures inbox == old(inbox) && phase == Ready
      ensures var o := FinishUpload(old(Abs()), old(uploadState), last); Abs() == o.state && sent == old(sent) + o.replies
    {
      if uploadState.received == uploadState.total {
        var ok := fm.WriteFileAtomic(uploadState.path, uploadState.buffer, last.write);
        if ok {
          var _ := fm.AtomicRenameTmp(uploadState.path, last.canRename);
        } else {
          sent := sent + [Error(ERROR)];
        }
      }
      phase := Ready;
    }

    /** Reads frames until the declared size is reached; `used` counts them and `cut` tells that the peer hung up first. */
    method ReadUploadFrames(env: Env, ghost done: seq<Input>)
      returns (last: Env, ghost used: nat, ghost cut: bool, ghost replies: seq<Reply>)
      requires var o := ContinueUpload(Abs(), uploadState, env);
               Serve(H, Abs(), done) == Out(o.state, [UploadAck] + o.replies)
      modifies this
      ensures Abs() == old(Abs()) && used <= |old(inbox)| && inbox == old(inbox)[used..]
      ensures cut <==> uploadState.received < uploadState.total
      ensures cut ==> inbox == []
      ensures sent == old(sent) + replies + if cut then [Error(ERROR)] else []
      ensures var o := ContinueUpload(Abs(), uploadState, last);
              Serve(H, Abs(), done + old(inbox)[..used]) == Out(o.state, [UploadAck] + replies + o.replies)
    {
      hide Serve;
      ghost var s0, frames, sent0 := Abs(), inbox, sent;
      last, used, cut, replies := env, 0, false, [];
      assert done + frames[..0] == done;
      while uploadState.received < uploadState.total
        invariant used <= |frames| && inbox == frames[used..] && !cut
        invariant Abs() == s0 && sent == sent0 + replies
        invariant var o := ContinueUpload(s0, uploadState, last);
                  Serve(H, s0, done + frames[..used]) == Out(o.state, [UploadAck] + replies + o.replies)
        decreases |inbox|
      {
        if inbox == [] {
          sent := sent + [Error(ERROR)];
          cut := true;
          break;
        }
        var f := inbox[0];
        UploadLoopStep(H, s0, done + frames[..used], uploadState, f);
        assert done + frames[..used + 1] == done + frames[..used] + [f];
        inbox := inbox[1..];
        last := f.env;
        used := used + 1;
        if f.msg.RawData? {
          uploadState := uploadState.(buffer := uploadState.buffer + f.msg.data,
                                      received := uploadState.received + |f.msg.data|);
          if f.env.ticked {
            ghost var progress := [Progress(uploadState.received, uploadState.total)];
            sent := sent + [Progress(uploadState.received, uploadState.total)];
            assert [UploadAck] + replies + [] + progress == [UploadAck] + (replies + progress);
            replies := replies + progress;
          }
        }
      }
    }

    method HandleUploadRequest(p: Path, size: nat, sha: string, env: Env) returns (ghost used: nat, ghost cut: bool)
      modifies this, fm
      ensures phase == Ready && used <= |old(inbox)| && inbox == old(inbox)[used..] && (cut ==> inbox == [])
      ensures var o := Serve(H, old(Abs()), [Input(UploadRequest(p, size, sha), env)] + old(inbox)[..used]);
              var h := HangUp(o.state);
              && (cut <==> o.state.upload.Some?)
              && Abs() == h.state && sent == old(sent) + o.replies + h.replies
    {
      hide Serve, ContinueUpload, FinishUpload, HangUp;
      UploadBegins(H, Abs(), p, size, sha, env);
      uploadState := Upload(p, size, 0, []);
      phase := Transferring;
      sent := sent + [UploadAck];
      var last;
      ghost var replies;
      last, used, cut, replies := ReadUploadFrames(env, [Input(UploadRequest(p, size, sha), env)]);
      UploadEnds(Abs(), uploadState, last);
      ghost var saved := FinishUpload(Abs(), uploadState, last);
      SaveUpload(last);
      assert old(sent) + [UploadAck] + replies + saved.replies == old(sent) + ([UploadAck] + replies + saved.replies);
    }

    /** One frame outside the upload loop that needs no further frames. */
    method HandleSimple(inp: Input)
      requires Valid() && !inp.msg.UploadRequest?
      modifies this, fm, handler
      ensures inbox == old(inbox)
      ensures var o := Dispatch(H, old(Abs()), inp); Abs() == o.state && sent == old(sent) + o.replies
    {
      var m := inp.msg;
      if m.ClientHello? {
        HandleClientHello(m.blockSize);
      } else if m.NegotiationRequest? {
        sent := sent + [Negotiate(H, State(config, blockSize, None, fm.files), m.path, m.sha)];
        phase := Ready;
      } else if m.DownloadRequest? {
        sent := sent + Download(H, State(config, blockSize, None, fm.files), m.path, m.offset);
        phase := Ready;
      } else if m.SignatureRequest? {
        HandleSignatureRequest(m.path, m.size, m.bs, m.sigs);
      } else if m.BlockData? {
        HandleBlockData(m.path, m.block, inp.env);
      } else if m.ListRequest? {
        sent := sent + [ListResponse];
      } else {
        sent := sent + [Error(PROTOCOL_ERROR)];
      }
    }

    /** One turn of the main loop: `step` is what it consumed, one frame or an upload request with its data. */
    method Turn() returns (ghost step: seq<Input>)
      requires Valid() && inbox != []
      modifies this, fm, handler
      ensures step != [] && old(inbox) == step + inbox
      ensures CaughtUp(H, old(Abs()), step, Abs(), old(sent), sent, inbox != [])
    {
      hide Serve, Dispatch;
      var inp := inbox[0];
      inbox := inbox[1..];
      if inp.msg.UploadRequest? {
        ghost var rest := inbox;
        ghost var used, cut := HandleUploadRequest(inp.msg.path, inp.msg.size, inp.msg.sha, inp.env);
        step := [inp] + rest[..used];
      } else {
        step := [inp];
        DispatchIsServe(H, Abs(), inp);
        HandleSimple(inp);
      }
    }

    /** The main loop, until the peer hangs up: exactly the function Serve, followed by HangUp. */
    method Run()
      requires Valid()
      modifies this, fm, handler
      ensures phase == Disconnected && inbox == []
      ensures var o := Serve(H, old(Abs()), old(inbox));
              var h := HangUp(o.state);
              Abs() == h.state && sent == old(sent) + o.replies + h.replies
    {
      ghost var s0, frames, sent0 := Abs(), inbox, sent;
      ghost var done: seq<Input> := [];
      NothingDone(H, s0, sent0);
      hide CaughtUp;
      while inbox != []
        invariant frames == done + inbox
        invariant CaughtUp(H, s0, done, Abs(), sent0, sent, inbox != [])
        decreases |inbox|
      {
        ghost var before, sent1, rest := Abs(), sent, inbox;
        ghost var step := Turn();
        CaughtUpStep(H, s0, done, before, sent0, sent1, step, Abs(), sent, inbox != []);
        assert done + rest == (done + step) + inbox;
        done := done + step;
      }
      assert done == frames;
      CaughtUpMeans(H, s0, frames, Abs(), sent0, sent);
      phase := Disconnected;
    }
  }

  /** After the frames `done` the session is where Serve, and HangUp in the end, would be. */
  ghost predicate CaughtUp(H: Hash, s: State, done: seq<Input>, now: State, sent0: seq<Reply>, sent: seq<Reply>, more: bool) {
    var o := Serve(H, s, done);
    var h := HangUp(o.state);
    (more ==> o.state.upload.None?) && now == h.state && sent == sent0 + o.replies + h.replies
  }

  lemma NothingDone(H: Hash, s: State, sent: seq<Reply>)
    requires s.upload.None?
    ensures CaughtUp(H, s, [], s, sent, sent, true)
  {
  }

  lemma CaughtUpMeans(H: Hash, s: State, done: seq<Input>, now: State, sent0: seq<Reply>, sent: seq<Reply>)
    requires CaughtUp(H, s, done, now, sent0, sent, false)
    ensures var o := Serve(H, s, done);
            var h := HangUp(o.state);
            now == h.state && sent == sent0 + o.replies + h.replies
  {
    hide Serve;
  }

  lemma DispatchIsServe(H: Hash, s: State, inp: Input)
    requires s.upload.None?
    ensures Serve(H, s, [inp]) == Dispatch(H, s, inp)
  {
    ServeOne(H, s, inp);
    hide Serve, Dispatch;
  }

  lemma CaughtUpStep(H: Hash, s: State, done: seq<Input>, mid: State, sent0: seq<Reply>, sent1: seq<Reply>,
                    step: seq<Input>, now: State, sent2: seq<Reply>, more: bool)
    requires CaughtUp(H, s, done, mid, sent0, sent1, true)
    requires CaughtUp(H, mid, step, now, sent1, sent2, more)
    ensures CaughtUp(H, s, done + step, now, sent0, sent2, more)
  {
    hide Serve;
    ServeConcat(H, s, done, step);
    var a, b := Serve(H, s, done), Serve(H, mid, step);
    assert mid == a.state;
    var h := HangUp(b.state);
    assert sent0 + a.replies + [] + b.replies + h.replies == sent0 + (a.replies + b.replies) + h.replies;
  }
}
