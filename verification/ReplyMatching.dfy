/** The Rust client and the server over two FIFO channels: is every frame the client takes as a reply really the
    reply to the request it has outstanding, and does every call return? Some of the client's reads skip unexpected
    frames, others take whatever comes. */
module ReplyMatching {
  import opened Bytes
  import Blocks
  import opened DeltaSync
  import opened Storage
  import opened Server
  import UploadSession
  import DeltaSession

  /** Frames carry the number of the client request they belong to; the peers themselves do not see it. */
  datatype Tagged<M> = Tagged(op: nat, val: M)

  /** A `sync_file` call and the local file it finds, if any. */
  datatype Job = Job(path: Path, local: Option<seq<byte>>)

  datatype Client =
    | Idle(uploaded: bool)                               // uploaded: the call that returned last was upload_file
    | AwaitNegotiation(skipped: nat, job: Option<Job>)   // read_expected, on its own or inside sync_file
    | AwaitList(skipped: nat)                            // read_expected
    | AwaitHeader(skipped: nat, path: Path)              // read_expected
    | AwaitRaw(path: Path, sha: string)                  // read_frame, type checked, digest checked
    | AwaitAck(path: Path, data: seq<byte>)              // read_frame, type not checked
    | AwaitBlockRequest(path: Path, file: seq<byte>)     // read_frame, type not checked
    | AwaitComplete                                      // read_frame, type not checked
    | Failed                                             // the call has returned an error

  /** One frame taken as the reply to request `op`. */
  datatype Taken = Taken(op: nat, client: Client, frame: Tagged<Reply>)

  datatype World = World(
    bs: BlockSize,
    client: Client,
    op: nat,
    toServer: seq<Tagged<Input>>,
    toClient: seq<Tagged<Reply>>,
    server: State,
    got: map<Path, seq<byte>>,
    log: seq<Taken>)

  const MAX_UNEXPECTED := 100

  predicate Expected(c: Client, r: Reply) {
    match c
    case AwaitNegotiation(_, _) => r.NegotiationResponse?
    case AwaitList(_) => r.ListResponse?
    case AwaitHeader(_, _) => r.DownloadHeader?
    case AwaitRaw(_, _) => r.RawReply?
    case AwaitAck(_, _) => r.UploadAck?
    case AwaitBlockRequest(_, _) => r.BlockRequest?
    case AwaitComplete => r.Complete?
    case _ => false
  }

  /** The frame answers the request that is waiting, and is of the kind it waits for. */
  predicate Matched(t: Taken) {
    t.frame.op == t.op && Expected(t.client, t.frame.val)
  }

  /** The calls of the client's interface, and the steps that carry them on. */
  datatype Action =
    | Negotiate(path: Path, sha: string, env: Env)
    | List(env: Env)
    | Download(path: Path, env: Env)
    | Upload(path: Path, data: seq<byte>, env: Env)
    | Delta(path: Path, file: seq<byte>, env: Env)
    | SyncFile(path: Path, local: Option<seq<byte>>, env: Env)
    | ServerStep
    | ClientRead(env: Env)

  predicate IsCall(a: Action) {
    !a.ServerStep? && !a.ClientRead?
  }

  /** A call whose first read takes whatever frame comes. */
  predicate IsTransfer(a: Action) {
    a.Upload? || a.Delta?
  }

  /** Waiting calls return to the caller only after reading their reply. */
  predicate Enabled(w: World, a: Action) {
    match a
    case ServerStep => w.toServer != []
    case ClientRead(_) => w.toClient != [] && !w.client.Idle? && !w.client.Failed?
    case _ => w.client.Idle?
  }

  /** The caller's discipline: no upload and no delta sync directly after an upload. */
  predicate Disciplined(w: World, a: Action) {
    IsTransfer(a) && w.client.Idle? ==> !w.client.uploaded
  }

  predicate EnvOk(a: Action) {
    a.ServerStep? || Reliable(a.env)
  }

  ghost function Tag<M>(op: nat, ms: seq<M>): (r: seq<Tagged<M>>)
    ensures |r| == |ms| && forall i :: 0 <= i < |ms| ==> r[i] == Tagged(op, ms[i])
  {
    seq(|ms|, i requires 0 <= i < |ms| => Tagged(op, ms[i]))
  }

  /** The digest a negotiation carries: empty when the local file cannot be read. */
  function Sha(H: Hash, local: Option<seq<byte>>): string {
    match local case None => "" case Some(f) => H(f)
  }

  ghost function RequestOf(H: Hash, bs: BlockSize, a: Action): Input
    requires IsCall(a)
  {
    var m := match a
      case Negotiate(p, sha, _) => NegotiationRequest(p, sha)
      case List(_) => ListRequest
      case Download(p, _) => DownloadRequest(p, 0)
      case Upload(p, d, _) => UploadRequest(p, |d|, H(d))
      case Delta(p, f, _) => SignatureRequest(p, |f|, bs, AllSignatures(H, f, bs))
      case SyncFile(p, local, _) => NegotiationRequest(p, Sha(H, local));
    Input(m, a.env)
  }

  function WaitingFor(a: Action): Client
    requires IsCall(a)
  {
    match a
    case Negotiate(_, _, _) => AwaitNegotiation(0, None)
    case List(_) => AwaitList(0)
    case Download(p, _) => AwaitHeader(0, p)
    case Upload(p, d, _) => AwaitAck(p, d)
    case Delta(p, f, _) => AwaitBlockRequest(p, f)
    case SyncFile(p, local, _) => AwaitNegotiation(0, Some(Job(p, local)))
  }

  /** A call sends its request and waits. */
  ghost function Call(H: Hash, w: World, a: Action): World
    requires IsCall(a)
  {
    w.(op := w.op + 1, client := WaitingFor(a), toServer := w.toServer + Tag(w.op + 1, [RequestOf(H, w.bs, a)]))
  }

  ghost function SendMore(w: World, ins: seq<Input>, next: Client): World {
    w.(client := next, toServer := w.toServer + Tag(w.op, ins))
  }

  /** How `sync_file` goes on after the negotiation. Without a local file both uploads return an error before they send
      anything. */
  ghost function Branch(H: Hash, w: World, job: Job, r: Reply, env: Env): World
    requires r.NegotiationResponse?
  {
    match r.mode
    case UNCHANGED => w
    case FRESH => Call(H, w, Download(job.path, env))
    case MODIFIED =>
      if job.local.None? then w
      else if r.transfer == DELTA_SYNC then Call(H, w, Delta(job.path, job.local.value, env))
      else Call(H, w, Action.Upload(job.path, job.local.value, env))
  }

  /** The indices the client finds when it decodes a frame as a block request. A progress message decodes too: its first
      field is a string in both messages, and its count of octets reads as a single index. */
  function AsBlockRequest(r: Reply): Option<seq<nat>> {
    match r
    case BlockRequest(_, indices) => Some(indices)
    case Progress(n, _) => Some(if n == 0 then [] else [U32(n)])
    case _ => None
  }

  /** What the client does with the frame at the head of its receive queue. */
  ghost function Read(H: Hash, w: World, env: Env): World
    requires w.toClient != []
  {
    var f := w.toClient[0];
    var rest := w.(toClient := w.toClient[1..]);
    var taken := rest.(log := w.log + [Taken(w.op, w.client, f)]);
    match w.client
    case AwaitNegotiation(k, job) =>
      if Expected(w.client, f.val) then
        match job
        case None => taken.(client := Idle(false))
        case Some(j) => Branch(H, taken.(client := Idle(false)), j, f.val, env)
      else rest.(client := if k + 1 == MAX_UNEXPECTED then Failed else AwaitNegotiation(k + 1, job))
    case AwaitList(k) =>
      if Expected(w.client, f.val) then taken.(client := Idle(false))
      else rest.(client := if k + 1 == MAX_UNEXPECTED then Failed else AwaitList(k + 1))
    case AwaitHeader(k, p) =>
      if Expected(w.client, f.val) then taken.(client := AwaitRaw(p, f.val.sha))
      else rest.(client := if k + 1 == MAX_UNEXPECTED then Failed else AwaitHeader(k + 1, p))
    case AwaitRaw(p, sha) =>
      if !f.val.RawReply? then taken.(client := Failed) else
        taken.(got := w.got[p := f.val.data], client := if sha != "" && H(f.val.data) != sha then Failed else Idle(false))
    case AwaitAck(p, d) =>
      if f.val.UploadAck? then SendMore(taken, [Input(RawData(d), env)], Idle(true)) else taken.(client := Failed)
    case AwaitBlockRequest(p, file) =>
      match AsBlockRequest(f.val) {
        case Some(indices) =>
          SendMore(taken, DeltaSession.BlockInputs(p, Sent(H, file, w.bs, indices), env), AwaitComplete)
        case None => taken.(client := Failed)
      }
    case AwaitComplete => taken.(client := if f.val.Complete? && f.val.status == OK then Idle(false) else Failed)
    case _ => taken.(client := Failed)
  }

  ghost function Step(H: Hash, w: World, a: Action): World
    requires Enabled(w, a)
  {
    match a
    case ServerStep =>
      var r := Receive(H, w.server, w.toServer[0].val);
      w.(toServer := w.toServer[1..], server := r.state, toClient := w.toClient + Tag(w.toServer[0].op, r.replies))
    case ClientRead(env) => Read(H, w, env)
    case _ => Call(H, w, a)
  }

  /** A run of client and server in any interleaving, on a reliable file system. */
  ghost predicate Runs(H: Hash, w: World, acts: seq<Action>)
    decreases |acts|
  {
    acts != [] ==> Enabled(w, acts[0]) && EnvOk(acts[0]) && Runs(H, Step(H, w, acts[0]), acts[1..])
  }

  ghost function After(H: Hash, w: World, acts: seq<Action>): World
    requires Runs(H, w, acts)
    decreases |acts|
  {
    if acts == [] then w else After(H, Step(H, w, acts[0]), acts[1..])
  }

  ghost predicate Careful(H: Hash, w: World, acts: seq<Action>)
    requires Runs(H, w, acts)
    decreases |acts|
  {
    acts != [] ==> Disciplined(w, acts[0]) && Careful(H, Step(H, w, acts[0]), acts[1..])
  }

  // ---- What is still to come: queued replies and those to frames under way ---------------------------

  ghost function EndState(H: Hash, s: State, ins: seq<Tagged<Input>>): State {
    if ins == [] then s else Receive(H, EndState(H, s, ins[..|ins| - 1]), ins[|ins| - 1].val).state
  }

  ghost function Future(H: Hash, s: State, ins: seq<Tagged<Input>>): seq<Tagged<Reply>> {
    if ins == [] then [] else
      var init, last := ins[..|ins| - 1], ins[|ins| - 1];
      Future(H, s, init) + Tag(last.op, Receive(H, EndState(H, s, init), last.val).replies)
  }

  ghost function Pending(H: Hash, w: World): seq<Tagged<Reply>> {
    w.toClient + Future(H, w.server, w.toServer)
  }

  ghost function End(H: Hash, w: World): State {
    EndState(H, w.server, w.toServer)
  }

  lemma {:induction false} FutureConcat(H: Hash, s: State, xs: seq<Tagged<Input>>, ys: seq<Tagged<Input>>)
    ensures EndState(H, s, xs + ys) == EndState(H, EndState(H, s, xs), ys)
    ensures Future(H, s, xs + ys) == Future(H, s, xs) + Future(H, EndState(H, s, xs), ys)
  {
    hide Receive;
    if ys == [] {
      assert xs + ys == xs;
    } else {
      FutureConcat(H, s, xs, ys[..|ys| - 1]);
      assert (xs + ys)[..|xs + ys| - 1] == xs + ys[..|ys| - 1];
    }
  }

  lemma {:induction false} FutureIsServe(H: Hash, s: State, op: nat, ins: seq<Input>)
    ensures EndState(H, s, Tag(op, ins)) == Serve(H, s, ins).state
    ensures Future(H, s, Tag(op, ins)) == Tag(op, Serve(H, s, ins).replies)
  {
    hide Receive;
    if ins != [] {
      FutureIsServe(H, s, op, ins[..|ins| - 1]);
      assert Tag(op, ins)[..|ins| - 1] == Tag(op, ins[..|ins| - 1]);
    }
  }

  /** A server step moves replies from the future into the queue and changes nothing else. */
  lemma ServerStepKeepsPending(H: Hash, w: World)
    requires w.toServer != []
    ensures Pending(H, Step(H, w, ServerStep)) == Pending(H, w)
    ensures End(H, Step(H, w, ServerStep)) == End(H, w)
  {
    hide Receive;
    var x, ys := w.toServer[0], w.toServer[1..];
    assert w.toServer == [x] + ys;
    FutureConcat(H, w.server, [x], ys);
    assert [x][..0] == [];
    var r := Receive(H, w.server, x.val);
    assert EndState(H, w.server, [x]) == r.state;
    assert Future(H, w.server, [x]) == Tag(x.op, r.replies);
  }

  /** Sending frames appends their replies to what is to come. */
  lemma SendingAppends(H: Hash, w: World, op: nat, ins: seq<Input>)
    ensures var w' := w.(toServer := w.toServer + Tag(op, ins));
            var o := Serve(H, End(H, w), ins);
            Pending(H, w') == Pending(H, w) + Tag(op, o.replies) && End(H, w') == o.state
  {
    hide Serve;
    FutureConcat(H, w.server, w.toServer, Tag(op, ins));
    FutureIsServe(H, End(H, w), op, ins);
  }

  /** Only the channels and the server decide what is to come. */
  lemma SameChannels(H: Hash, w: World, v: World)
    requires w.toClient == v.toClient && w.toServer == v.toServer && w.server == v.server
    ensures Pending(H, w) == Pending(H, v) && End(H, w) == End(H, v)
  {
  }

  // ---- The invariant --------------------------------------------------------------------------------

  predicate Noise(p: seq<Tagged<Reply>>) {
    forall i :: 0 <= i < |p| ==> p[i].val.Progress? || p[i].val.Error?
  }

  predicate Stale(p: seq<Tagged<Reply>>) {
    |p| <= 1 && Noise(p)
  }

  /** A download of stored file `f` that was granted: header and data are the last two frames to come. */
  predicate HeaderDue(H: Hash, f: Option<seq<byte>>, op: nat, p: seq<Tagged<Reply>>) {
    && f.Some? && |p| >= 2 && Stale(p[..|p| - 2])
    && p[|p| - 2].op == op && p[|p| - 2].val.DownloadHeader? && p[|p| - 2].val.sha == H(f.value)
    && p[|p| - 1] == Tagged(op, RawReply(f.value))
  }

  /** What may be on its way to the client, by what the client is waiting for. */
  ghost predicate Fits(H: Hash, w: World, p: seq<Tagged<Reply>>, end: State) {
    && end.blockSize == w.bs
    && match w.client
       case Idle(uploaded) => end.upload.None? && Stale(p) && (!uploaded ==> p == [])
       case AwaitNegotiation(k, job) =>
         && end.upload.None? && p != [] && Stale(p[..|p| - 1]) && k + |p| <= 2
         && p[|p| - 1].op == w.op && p[|p| - 1].val.NegotiationResponse?
         && (job.Some? ==> p[|p| - 1].val == Server.Negotiate(H, end, job.value.path, Sha(H, job.value.local)))
       case AwaitList(k) =>
         && end.upload.None? && p != [] && Stale(p[..|p| - 1]) && k + |p| <= 2
         && p[|p| - 1].op == w.op && p[|p| - 1].val.ListResponse?
       case AwaitHeader(k, path) =>
         end.upload.None? && k + |p| <= 3 && (HeaderDue(H, Content(end.files, path), w.op, p) || Noise(p))
       case AwaitRaw(path, sha) =>
         && end.upload.None? && path in end.files
         && p == [Tagged(w.op, RawReply(end.files[path]))] && sha == H(end.files[path])
       case AwaitAck(path, d) =>
         && |p| == 1 && p[0].op == w.op && p[0].val.UploadAck?
         && end.upload == if d == [] then None else Some(Server.Upload(path, |d|, 0, []))
       case AwaitBlockRequest(path, _) =>
         && end.upload.None? && |p| == 1 && p[0].op == w.op && p[0].val.BlockRequest?
         && StrictlyIncreasing(p[0].val.indices)
       case AwaitComplete => end.upload.None? && (p == [] || (|p| == 1 && p[0].op == w.op && p[0].val.Complete? && p[0].val.status == OK))
       case Failed => false
  }

  ghost predicate Inv(H: Hash, w: World) {
    && Fits(H, w, Pending(H, w), End(H, w))
    && forall i :: 0 <= i < |w.log| ==> Matched(w.log[i])
  }

  // ---- When a call returns ---------------------------------------------------------------------------

  /** The indices of the blocks a delta sync of `C` sends to a server in state `s`. */
  ghost function SentTo(H: Hash, s: State, p: Path, C: seq<byte>, bs: BlockSize): seq<nat> {
    Kept(RequestList(H, ServerFileAt(s.files, p), |C|, bs, AllSignatures(H, C, bs)), |C|, bs)
  }

  /** When a call returns, in terms of the server's files, the local file and the block size. */
  ghost predicate Returns(H: Hash, s: State, bs: BlockSize, a: Action)
    requires IsCall(a)
  {
    match a
    case Download(p, _) => p in s.files && s.files[p] != []
    case Delta(p, C, _) => DeltaSession.EndsShort(|C|, bs, bs, SentTo(H, s, p, C, bs))
    case SyncFile(p, local, _) => SyncReturns(H, s, bs, Job(p, local))
    case _ => true
  }

  /** `sync_file` returns exactly when the server has the file and either there is no local file to send, or the digests
      are equal and not empty, or the last block of the local file is short and is sent. */
  ghost predicate SyncReturns(H: Hash, s: State, bs: BlockSize, j: Job) {
    && j.path in s.files
    && (j.local.Some? ==>
          var C, S := j.local.value, s.files[j.path];
          (H(C) != "" && H(C) == H(S)) || DeltaSession.EndsShort(|C|, bs, bs, DeltaSession.SentOrder(H, C, S, bs)))
  }

  /** The call under way will return, judged by what is on its way. */
  ghost predicate WillReturn(H: Hash, w: World, p: seq<Tagged<Reply>>, end: State) {
    match w.client
    case AwaitNegotiation(_, job) => job.Some? ==> SyncReturns(H, end, w.bs, job.value)
    case AwaitHeader(_, path) => HeaderDue(H, Content(end.files, path), w.op, p)
    case AwaitBlockRequest(_, C) =>
      p != [] && p[0].val.BlockRequest? && DeltaSession.EndsShort(|C|, w.bs, w.bs, Kept(p[0].val.indices, |C|, w.bs))
    case AwaitComplete => p != []
    case Failed => false
    case _ => true
  }

  // ---- Calls -------------------------------------------------------------------------------------------

  lemma CallPending(H: Hash, w: World, a: Action)
    requires IsCall(a)
    ensures var w' := Call(H, w, a);
            var r := Receive(H, End(H, w), RequestOf(H, w.bs, a));
            Pending(H, w') == Pending(H, w) + Tag(w.op + 1, r.replies) && End(H, w') == r.state
  {
    hide Pending, End, Serve, Receive, RequestOf, Tag;
    var inp := RequestOf(H, w.bs, a);
    SendingAppends(H, w, w.op + 1, [inp]);
    ServeOne(H, End(H, w), inp);
    SameChannels(H, Call(H, w, a), w.(toServer := w.toServer + Tag(w.op + 1, [inp])));
  }

  /** One call from an idle client: what it brings fits, and tells whether it returns. */
  lemma CallFits(H: Hash, w: World, a: Action)
    requires w.client.Idle? && IsCall(a) && Reliable(a.env)
    requires Fits(H, w, Pending(H, w), End(H, w)) && Disciplined(w, a)
    ensures var w' := Call(H, w, a);
            && Fits(H, w', Pending(H, w'), End(H, w'))
            && (WillReturn(H, w', Pending(H, w'), End(H, w')) <==> Returns(H, End(H, w), w.bs, a))
  {
    hide Pending, End, Receive, RequestOf, Fits, Returns, WillReturn;
    CallPending(H, w, a);
    if a.Negotiate? || a.List? || a.SyncFile? {
      AskFits(H, w, a, Pending(H, w), End(H, w));
    } else if a.Download? {
      DownloadFits(H, w, a, Pending(H, w), End(H, w));
    } else {
      TransferFits(H, w, a, Pending(H, w), End(H, w));
    }
  }

  lemma AskFits(H: Hash, w: World, a: Action, p: seq<Tagged<Reply>>, end: State)
    requires w.client.Idle? && (a.Negotiate? || a.List? || a.SyncFile?) && Fits(H, w, p, end)
    ensures var r := Receive(H, end, RequestOf(H, w.bs, a));
            var w', p' := Call(H, w, a), p + Tag(w.op + 1, r.replies);
            Fits(H, w', p', r.state) && (WillReturn(H, w', p', r.state) <==> Returns(H, end, w.bs, a))
  {
    hide SyncReturns, Receive, RequestOf, Server.Negotiate, WillReturn, Returns, Tag, StrictlyIncreasing, HeaderDue, Noise;
    AskReply(H, end, w.bs, a);
    var t := Tagged(w.op + 1, Answer(H, end, a));
    assert Tag(w.op + 1, [Answer(H, end, a)]) == [t];
    ReplyAwaited(H, Call(H, w, a), p, t, end);
    AskReturns(H, w, a, p + [t], end);
  }

  lemma ReplyAwaited(H: Hash, w: World, p: seq<Tagged<Reply>>, t: Tagged<Reply>, end: State)
    requires Stale(p) && end.upload.None? && end.blockSize == w.bs && t.op == w.op
    requires || (w.client == AwaitList(0) && t.val.ListResponse?)
             || (w.client == AwaitNegotiation(0, None) && t.val.NegotiationResponse?)
             || (w.client.AwaitNegotiation? && w.client.skipped == 0 && w.client.job.Some? && t.val.NegotiationResponse?
                 && t.val == Server.Negotiate(H, end, w.client.job.value.path, Sha(H, w.client.job.value.local)))
    ensures Fits(H, w, p + [t], end)
  {
    hide Server.Negotiate, StrictlyIncreasing, HeaderDue, Noise;
    assert (p + [t])[..|p|] == p;
  }

  lemma AskReturns(H: Hash, w: World, a: Action, p: seq<Tagged<Reply>>, end: State)
    requires a.Negotiate? || a.List? || a.SyncFile?
    ensures WillReturn(H, Call(H, w, a), p, end) <==> Returns(H, end, w.bs, a)
  {
    hide SyncReturns, RequestOf, SentTo, Kept, DeltaSession.EndsShort, HeaderDue;
  }

  function Answer(H: Hash, s: State, a: Action): Reply {
    match a
    case Negotiate(p, sha, _) => Server.Negotiate(H, s, p, sha)
    case SyncFile(p, local, _) => Server.Negotiate(H, s, p, Sha(H, local))
    case _ => ListResponse
  }

  lemma AskReply(H: Hash, s: State, bs: BlockSize, a: Action)
    requires s.upload.None? && (a.Negotiate? || a.List? || a.SyncFile?)
    ensures Receive(H, s, RequestOf(H, bs, a)) == Out(s, [Answer(H, s, a)])
    ensures !a.List? ==> Answer(H, s, a).NegotiationResponse?
  {
    hide AllSignatures;
  }

  lemma DownloadFits(H: Hash, w: World, a: Action, p: seq<Tagged<Reply>>, end: State)
    requires w.client.Idle? && a.Download? && Fits(H, w, p, end)
    ensures var r := Receive(H, end, RequestOf(H, w.bs, a));
            var w', p' := Call(H, w, a), p + Tag(w.op + 1, r.replies);
            Fits(H, w', p', r.state) && (WillReturn(H, w', p', r.state) <==> Returns(H, end, w.bs, a))
  {
    hide SyncReturns, Receive, RequestOf, AllSignatures, Server.Download, DeltaSession.EndsShort, SentTo, Kept,
         HeaderDue, StrictlyIncreasing, Noise;
    DownloadReply(H, end, w.bs, a.path, a.env);
    DownloadDue(H, Content(end.files, a.path), p, w.op + 1, Server.Download(H, end, a.path, 0));
  }

  lemma DownloadReply(H: Hash, s: State, bs: BlockSize, p: Path, env: Env)
    requires s.upload.None?
    ensures var replies := Server.Download(H, s, p, 0);
            && Receive(H, s, RequestOf(H, bs, Download(p, env))) == Out(s, replies)
            && if p in s.files && s.files[p] != []
               then |replies| == 2 && replies[0].DownloadHeader? && replies[0].sha == H(s.files[p])
                    && replies[1] == RawReply(s.files[p])
               else replies == [Error(FILE_NOT_FOUND)]
  {
  }

  lemma DownloadDue(H: Hash, f: Option<seq<byte>>, p: seq<Tagged<Reply>>, op: nat, replies: seq<Reply>)
    requires Stale(p)
    requires || replies == [Error(FILE_NOT_FOUND)]
             || (f.Some? && |replies| == 2 && replies[0].DownloadHeader? && replies[0].sha == H(f.value)
                 && replies[1] == RawReply(f.value))
    ensures var p' := p + Tag(op, replies);
            |p'| <= 3 && if |replies| == 2 then HeaderDue(H, f, op, p') else Noise(p') && !HeaderDue(H, f, op, p')
  {
    var p' := p + Tag(op, replies);
    if |replies| == 2 {
      assert p'[..|p'| - 2] == p;
    }
  }

  lemma TransferFits(H: Hash, w: World, a: Action, p: seq<Tagged<Reply>>, end: State)
    requires w.client.Idle? && IsTransfer(a) && Reliable(a.env) && Fits(H, w, p, end) && Disciplined(w, a)
    ensures var r := Receive(H, end, RequestOf(H, w.bs, a));
            var w', p' := Call(H, w, a), p + Tag(w.op + 1, r.replies);
            Fits(H, w', p', r.state) && (WillReturn(H, w', p', r.state) <==> Returns(H, end, w.bs, a))
  {
    if a.Upload? {
      UploadSession.UploadRequested(H, end, a.path, |a.data|, H(a.data), a.env);
    } else {
      var file, sigs := ServerFileAt(end.files, a.path), AllSignatures(H, a.file, w.bs);
      hide WantedBelow, AllSignatures, DeltaSession.EndsShort, Kept;
      WantedBelowFacts(H, file, w.bs, sigs, LastIndex(file, |a.file|, w.bs));
    }
  }

  // ---- Reads ---------------------------------------------------------------------------------------------

  /** The block replies: one completion if the last block sent is short, silence otherwise. */
  lemma BlocksReplies(H: Hash, end: State, p: Path, file: seq<byte>, bs: BlockSize, indices: seq<nat>, env: Env)
    requires end.upload.None? && end.blockSize == bs && Reliable(env) && StrictlyIncreasing(indices)
    ensures var o := Serve(H, end, DeltaSession.BlockInputs(p, Sent(H, file, bs, indices), env));
            && o.state.upload.None? && o.state.blockSize == bs
            && if DeltaSession.EndsShort(|file|, bs, bs, Kept(indices, |file|, bs))
               then |o.replies| == 1 && o.replies[0].Complete? && o.replies[0].status == OK else o.replies == []
  {
    hide Serve, DeltaSession.EndsShort;
    KeptFacts(indices, |file|, bs);
    DeltaSession.Finalisation(H, end, p, file, bs, Kept(indices, |file|, bs), env);
  }

  /** The raw frame of an upload leaves a frame that nobody waits for exactly when the file is empty or the clock ticked. */
  lemma RawReplies(H: Hash, end: State, p: Path, d: seq<byte>, env: Env)
    requires end.upload == (if d == [] then None else Some(Server.Upload(p, |d|, 0, []))) && Reliable(env)
    ensures var o := Serve(H, end, [Input(RawData(d), env)]);
            && o.state.upload.None? && o.state.blockSize == end.blockSize
            && o.replies == UploadSession.Leftover(d, env)
  {
    ServeOne(H, end, Input(RawData(d), env));
    hide Serve;
    if d != [] {
      UploadSession.RawFrameLeftover(H, end.(upload := None), p, d, env);
    }
  }

  lemma HeadTaken(H: Hash, w: World)
    requires w.toClient != []
    ensures var rest := w.(toClient := w.toClient[1..]);
            && Pending(H, w) != [] && Pending(H, w)[0] == w.toClient[0]
            && Pending(H, rest) == Pending(H, w)[1..] && End(H, rest) == End(H, w)
  {
  }

  /** The read that ends the negotiation inside `sync_file`. */
  predicate Branches(w: World) {
    w.toClient != [] && w.client.AwaitNegotiation? && w.client.job.Some? && w.toClient[0].val.NegotiationResponse?
  }

  /** Reads that send nothing. */
  lemma PlainReadFits(H: Hash, w: World, env: Env, p: seq<Tagged<Reply>>, end: State)
    requires w.toClient != [] && p != [] && p[0] == w.toClient[0] && Fits(H, w, p, end)
    requires !w.client.Idle? && !w.client.AwaitAck? && !w.client.AwaitBlockRequest? && !Branches(w)
    ensures var w' := Read(H, w, env);
            && Fits(H, w', p[1..], end)
            && (WillReturn(H, w', p[1..], end) <==> WillReturn(H, w, p, end))
            && w'.toServer == w.toServer && w'.toClient == w.toClient[1..] && w'.server == w.server
            && (w'.log == w.log || (w'.log == w.log + [Taken(w.op, w.client, p[0])] && Matched(Taken(w.op, w.client, p[0]))))
  {
    hide SyncReturns, DeltaSession.EndsShort, Kept;
    if w.client.AwaitHeader? {
      HeaderRead(H, Content(end.files, w.client.path), w.op, p);
    } else if w.client.AwaitNegotiation? || w.client.AwaitList? {
      assert |p| == 2 ==> p[..1][0] == p[0] && p[1..][..0] == [];
    }
  }

  lemma HeaderRead(H: Hash, f: Option<seq<byte>>, op: nat, p: seq<Tagged<Reply>>)
    requires p != [] && |p| <= 3 && (HeaderDue(H, f, op, p) || Noise(p))
    ensures if p[0].val.DownloadHeader? then HeaderDue(H, f, op, p) && |p| == 2 && p[0].op == op && p[0].val.sha == H(f.value)
            else (HeaderDue(H, f, op, p) <==> HeaderDue(H, f, op, p[1..])) && (HeaderDue(H, f, op, p[1..]) || Noise(p[1..]))
  {
    if HeaderDue(H, f, op, p) {
      assert |p| == 3 ==> p[..1][0] == p[0] && p[1..][..0] == [];
    }
  }

  /** Reads that make the client send the body of its transfer. */
  lemma AnsweringReadFits(H: Hash, w: World, env: Env)
    requires Inv(H, w) && w.toClient != [] && Reliable(env)
    requires w.client.AwaitAck? || w.client.AwaitBlockRequest?
    ensures var w' := Read(H, w, env);
            && Inv(H, w')
            && (WillReturn(H, w', Pending(H, w'), End(H, w')) <==> WillReturn(H, w, Pending(H, w), End(H, w)))
    ensures w.client.AwaitAck? ==> Pending(H, Read(H, w, env)) == Tag(w.op, UploadSession.Leftover(w.client.data, env))
  {
    hide Pending, End, Serve, Receive, DeltaSession.EndsShort, Kept;
    HeadTaken(H, w);
    var p, end, f := Pending(H, w), End(H, w), w.toClient[0];
    var rest := w.(toClient := w.toClient[1..]);
    var ins: seq<Input>;
    if w.client.AwaitAck? {
      ins := [Input(RawData(w.client.data), env)];
      RawReplies(H, end, w.client.path, w.client.data, env);
    } else {
      ins := DeltaSession.BlockInputs(w.client.path, Sent(H, w.client.file, w.bs, f.val.indices), env);
      BlocksReplies(H, end, w.client.path, w.client.file, w.bs, f.val.indices, env);
    }
    SendingAppends(H, rest, w.op, ins);
    var w' := Read(H, w, env);
    SameChannels(H, w', rest.(toServer := rest.toServer + Tag(w.op, ins)));
    assert Pending(H, w') == Tag(w.op, Serve(H, end, ins).replies);
  }

  /** The world in which `sync_file` decides how to go on: as if a negotiation had just returned. */
  ghost function Negotiated(w: World): World
    requires w.toClient != []
  {
    w.(toClient := w.toClient[1..], log := w.log + [Taken(w.op, w.client, w.toClient[0])], client := Idle(false))
  }

  lemma NegotiatedFits(H: Hash, w: World)
    requires Inv(H, w) && Branches(w)
    ensures Inv(H, Negotiated(w)) && End(H, Negotiated(w)) == End(H, w)
    ensures w.toClient[0].val == Server.Negotiate(H, End(H, w), w.client.job.value.path, Sha(H, w.client.job.value.local))
  {
    hide Pending, End;
    HeadTaken(H, w);
    SameChannels(H, Negotiated(w), w.(toClient := w.toClient[1..]));
    HeadOrAlone(Pending(H, w));
  }

  lemma HeadOrAlone(p: seq<Tagged<Reply>>)
    requires p != [] && Noise(p[..|p| - 1])
    ensures |p| == 1 || p[0].val.Progress? || p[0].val.Error?
  {
    assert |p| > 1 ==> p[..|p| - 1][0] == p[0];
  }

  /** `sync_file` returns exactly when the call it goes on with returns, if it goes on. */
  lemma SyncGoesOn(H: Hash, s: State, bs: BlockSize, j: Job, env: Env)
    ensures var r := Server.Negotiate(H, s, j.path, Sha(H, j.local));
            && r.NegotiationResponse? && (r.mode == MODIFIED ==> r.transfer == DELTA_SYNC)
            && (SyncReturns(H, s, bs, j) <==>
                  match r.mode
                  case UNCHANGED => true
                  case FRESH => Returns(H, s, bs, Download(j.path, env))
                  case MODIFIED => j.local.Some? ==> Returns(H, s, bs, Delta(j.path, j.local.value, env)))
  {
    hide DeltaSession.EndsShort, RequestList, AllSignatures, Kept;
  }

  lemma BranchFits(H: Hash, w: World, env: Env)
    requires Inv(H, w) && Branches(w) && Reliable(env)
    ensures var w' := Read(H, w, env);
            && Inv(H, w')
            && (WillReturn(H, w', Pending(H, w'), End(H, w')) <==> WillReturn(H, w, Pending(H, w), End(H, w)))
  {
    hide Pending, End, Fits, SyncReturns, Returns, Server.Negotiate, RequestOf;
    NegotiatedFits(H, w);
    var j, v, r := w.client.job.value, Negotiated(w), w.toClient[0].val;
    SyncGoesOn(H, End(H, w), w.bs, j, env);
    if r.mode == FRESH {
      CallFits(H, v, Download(j.path, env));
    } else if r.mode == MODIFIED && j.local.Some? {
      CallFits(H, v, Delta(j.path, j.local.value, env));
    }
  }

  // ---- Every step ------------------------------------------------------------------------------------------

  lemma StepInv(H: Hash, w: World, a: Action)
    requires Inv(H, w) && Enabled(w, a) && Disciplined(w, a) && EnvOk(a)
    ensures Inv(H, Step(H, w, a))
    ensures !IsCall(a) ==>
              var w' := Step(H, w, a);
              (WillReturn(H, w', Pending(H, w'), End(H, w')) <==> WillReturn(H, w, Pending(H, w), End(H, w)))
  {
    hide Pending, End, WillReturn;
    if a.ServerStep? {
      ServerStepKeepsPending(H, w);
      SameClient(H, w, Step(H, w, a), Pending(H, w), End(H, w));
    } else if IsCall(a) {
      CallFits(H, w, a);
    } else if w.client.AwaitAck? || w.client.AwaitBlockRequest? {
      AnsweringReadFits(H, w, a.env);
    } else if Branches(w) {
      BranchFits(H, w, a.env);
    } else {
      HeadTaken(H, w);
      PlainReadFits(H, w, a.env, Pending(H, w), End(H, w));
      SameChannels(H, Read(H, w, a.env), w.(toClient := w.toClient[1..]));
    }
  }

  lemma SameClient(H: Hash, w: World, v: World, p: seq<Tagged<Reply>>, end: State)
    requires w.client == v.client && w.op == v.op && w.bs == v.bs
    ensures WillReturn(H, w, p, end) <==> WillReturn(H, v, p, end)
  {
  }

  lemma {:induction false} RunInv(H: Hash, w: World, acts: seq<Action>)
    requires Inv(H, w) && Runs(H, w, acts) && Careful(H, w, acts)
    ensures Inv(H, After(H, w, acts))
    decreases |acts|
  {
    hide Inv, Step;
    if acts != [] {
      StepInv(H, w, acts[0]);
      RunInv(H, Step(H, w, acts[0]), acts[1..]);
    }
  }

  // ---- Matching ----------------------------------------------------------------------------------------------

  /** A connection right after the handshake, with agreed block sizes. */
  ghost predicate Connected(w: World) {
    && w.client == Idle(false) && w.toServer == [] && w.toClient == [] && w.log == []
    && w.server.upload.None? && w.server.blockSize == w.bs
  }

  lemma ReachableInv(H: Hash, w: World, acts: seq<Action>)
    requires Connected(w) && Runs(H, w, acts) && Careful(H, w, acts)
    ensures Inv(H, After(H, w, acts))
  {
    assert Inv(H, w);
    hide Inv;
    RunInv(H, w, acts);
  }

  /** On every run in which no upload and no delta sync directly follows an upload, every frame taken as a reply is the
      reply to the request that is waiting for it, and no call fails. */
  lemma RepliesMatch(H: Hash, w: World, acts: seq<Action>)
    requires Connected(w) && Runs(H, w, acts) && Careful(H, w, acts)
    ensures var end := After(H, w, acts);
            (forall i :: 0 <= i < |end.log| ==> Matched(end.log[i])) && !end.client.Failed?
  {
    ReachableInv(H, w, acts);
    hide Runs, After, Careful, Pending, End;
  }

  /** Between calls at most one stale frame is queued or under way, and none unless the last call was an upload. */
  lemma StaleIsBounded(H: Hash, w: World, acts: seq<Action>)
    requires Connected(w) && Runs(H, w, acts) && Careful(H, w, acts) && After(H, w, acts).client.Idle?
    ensures var end := After(H, w, acts);
            && Stale(Pending(H, end))
            && |end.toClient| <= 1
            && (!end.client.uploaded ==> Pending(H, end) == [])
  {
    ReachableInv(H, w, acts);
    hide Runs, After, Careful, Future;
  }

  ghost predicate NoCalls(acts: seq<Action>) {
    forall i :: 0 <= i < |acts| ==> !IsCall(acts[i])
  }

  lemma {:induction false} LogGrows(H: Hash, w: World, acts: seq<Action>)
    requires Runs(H, w, acts)
    ensures w.log <= After(H, w, acts).log
    decreases |acts|
  {
    if acts != [] {
      LogGrowsOnce(H, w, acts[0]);
      hide Step;
      LogGrows(H, Step(H, w, acts[0]), acts[1..]);
    }
  }

  lemma LogGrowsOnce(H: Hash, w: World, a: Action)
    requires Enabled(w, a)
    ensures w.log <= Step(H, w, a).log
  {
    hide Receive, Pending;
  }

  /** A read without type check takes the head of what is to come, whenever it happens. */
  lemma {:induction false} FirstTaken(H: Hash, v: World, rest: seq<Action>)
    requires (v.client.AwaitAck? || v.client.AwaitBlockRequest?) && Pending(H, v) != [] && Runs(H, v, rest)
    ensures var end := After(H, v, rest);
            || (end.log == v.log && end.client == v.client)
            || (|end.log| > |v.log| && end.log[|v.log|] == Taken(v.op, v.client, Pending(H, v)[0]))
    decreases |rest|
  {
    if rest != [] {
      var w := Step(H, v, rest[0]);
      if rest[0].ServerStep? {
        ServerStepKeepsPending(H, v);
        hide Pending, Step;
        FirstTaken(H, w, rest[1..]);
      } else {
        HeadTaken(H, v);
        TakesOne(H, v, rest[0].env);
        hide Pending, Step;
        LogGrows(H, w, rest[1..]);
      }
    }
  }

  lemma TakesOne(H: Hash, v: World, env: Env)
    requires v.toClient != [] && (v.client.AwaitAck? || v.client.AwaitBlockRequest?)
    ensures Read(H, v, env).log == v.log + [Taken(v.op, v.client, v.toClient[0])]
  {
  }

  /** Between calls the server may go on working; nothing changes for the client. */
  lemma {:induction false} IdleKeepsPending(H: Hash, v: World, mid: seq<Action>)
    requires v.client.Idle? && Runs(H, v, mid) && NoCalls(mid)
    ensures var u := After(H, v, mid);
            u.client == v.client && u.log == v.log && Pending(H, u) == Pending(H, v) && End(H, u) == End(H, v)
    decreases |mid|
  {
    if mid != [] {
      ServerStepKeepsPending(H, v);
      hide Pending, End;
      IdleKeepsPending(H, Step(H, v, mid[0]), mid[1..]);
    }
  }

  /** A transfer request has one reply, of the kind the client then waits for. */
  lemma OneReply(H: Hash, bs: BlockSize, a: Action, end: State)
    requires IsTransfer(a) && Reliable(a.env) && end.upload.None?
    ensures var replies := Receive(H, end, RequestOf(H, bs, a)).replies;
            |replies| == 1 && Expected(WaitingFor(a), replies[0])
  {
    if a.Upload? {
      UploadSession.UploadRequested(H, end, a.path, |a.data|, H(a.data), a.env);
    }
  }

  /** From the idle world `v`: the server works on for `mid`, then transfer `a` is called, and `rest` takes a frame. */
  ghost predicate Continues(H: Hash, v: World, a: Action, mid: seq<Action>, rest: seq<Action>)
    requires IsCall(a)
  {
    && Runs(H, v, mid) && NoCalls(mid)
    && var u := Call(H, After(H, v, mid), a);
       Runs(H, u, rest) && |After(H, u, rest).log| > |v.log|
  }

  ghost function FirstFrame(H: Hash, v: World, a: Action, mid: seq<Action>, rest: seq<Action>): Taken
    requires IsCall(a) && Continues(H, v, a, mid, rest)
  {
    After(H, Call(H, After(H, v, mid), a), rest).log[|v.log|]
  }

  /** However server and client interleave, the first frame that transfer `a` takes is its own reply. */
  ghost predicate AlwaysMatches(H: Hash, v: World, a: Action)
    requires IsCall(a)
  {
    forall mid, rest :: Continues(H, v, a, mid, rest) ==> Matched(FirstFrame(H, v, a, mid, rest))
  }

  ghost predicate NeverMatches(H: Hash, v: World, a: Action)
    requires IsCall(a)
  {
    forall mid, rest :: Continues(H, v, a, mid, rest) ==> !Matched(FirstFrame(H, v, a, mid, rest))
  }

  lemma FirstFrameMatches(H: Hash, v: World, a: Action, mid: seq<Action>, rest: seq<Action>)
    requires v.client.Idle? && IsTransfer(a) && Reliable(a.env) && End(H, v).upload.None? && Stale(Pending(H, v))
    requires Continues(H, v, a, mid, rest)
    ensures Matched(FirstFrame(H, v, a, mid, rest)) <==> Pending(H, v) == []
  {
    hide Pending, End, Receive, RequestOf, Runs, After;
    IdleKeepsPending(H, v, mid);
    var m := After(H, v, mid);
    var u := Call(H, m, a);
    CallPending(H, m, a);
    OneReply(H, m.bs, a, End(H, m));
    FirstTaken(H, u, rest);
  }

  /** Some run delivers what is pending. */
  lemma {:induction false} Delivers(H: Hash, u: World, env: Env) returns (rest: seq<Action>)
    requires (u.client.AwaitAck? || u.client.AwaitBlockRequest?) && Pending(H, u) != [] && Reliable(env)
    ensures Runs(H, u, rest) && |After(H, u, rest).log| > |u.log|
    decreases |u.toServer|
  {
    if u.toClient != [] {
      rest := [ClientRead(env)];
      TakesOne(H, u, env);
      assert rest[1..] == [];
      hide Pending;
    } else {
      ServerStepKeepsPending(H, u);
      assert Enabled(u, ServerStep);
      hide Pending, Receive;
      var more := Delivers(H, Step(H, u, ServerStep), env);
      rest := [ServerStep] + more;
      assert rest[1..] == more;
    }
  }

  /** The frame at the head of the queue ends the call under way. */
  ghost predicate CallEnds(H: Hash, v: World) {
    v.toClient != [] && !v.client.Idle? && forall env | Reliable(env) :: Read(H, v, env).client.Idle?
  }

  lemma TickedUpload(H: Hash, v: World, a: Action) returns (env: Env)
    requires Inv(H, v) && CallEnds(H, v) && v.client.AwaitAck? && IsTransfer(a) && Reliable(a.env)
    ensures Reliable(env) && NeverMatches(H, Read(H, v, env), a) && !AlwaysMatches(H, Read(H, v, env), a)
  {
    env := Env(true, Done, true, true);
    var u := Read(H, v, env);
    hide Pending, End, Receive, WillReturn;
    AnsweringReadFits(H, v, env);
    hide Continues, FirstFrame;
    forall mid, rest | Continues(H, u, a, mid, rest) ensures !Matched(FirstFrame(H, u, a, mid, rest)) {
      FirstFrameMatches(H, u, a, mid, rest);
    }
    SomeContinuation(H, u, a, env);
  }

  lemma Waits(H: Hash, u: World, a: Action)
    requires IsTransfer(a)
    ensures var v := Call(H, u, a); (v.client.AwaitAck? || v.client.AwaitBlockRequest?) && v.log == u.log
  {
    hide RequestOf;
  }

  lemma SomeContinuation(H: Hash, u: World, a: Action, env: Env)
    requires u.client.Idle? && IsTransfer(a) && Pending(H, u) != [] && Reliable(env)
    ensures exists mid, rest :: Continues(H, u, a, mid, rest)
  {
    hide Receive, RequestOf, Pending, End, Call;
    CallPending(H, u, a);
    Waits(H, u, a);
    var rest := Delivers(H, Call(H, u, a), env);
    assert Runs(H, u, []) && After(H, u, []) == u;
    hide Runs, After;
    assert Continues(H, u, a, [], rest);
  }

  lemma BackFromOther(H: Hash, v: World, env: Env)
    requires Inv(H, v) && CallEnds(H, v) && !v.client.AwaitAck? && Reliable(env)
    ensures Inv(H, Read(H, v, env)) && Read(H, v, env).client == Idle(false)
  {
    hide Inv, Pending, End, WillReturn, Read;
    NotUploaded(H, v, env);
    NotFailed(H, v);
    StepInv(H, v, ClientRead(env));
  }

  lemma NotFailed(H: Hash, v: World)
    requires Inv(H, v)
    ensures !v.client.Failed?
  {
    hide Pending, End;
  }

  lemma NotUploaded(H: Hash, v: World, env: Env)
    requires v.toClient != [] && !v.client.AwaitAck? && !v.client.Idle? && Read(H, v, env).client.Idle?
    ensures Read(H, v, env).client == Idle(false)
  {
    hide RequestOf, Sent;
  }

  lemma IdleFits(H: Hash, u: World)
    requires Inv(H, u) && u.client == Idle(false)
    ensures Pending(H, u) == [] && Stale(Pending(H, u)) && End(H, u).upload.None?
  {
    hide Pending, End;
  }

  lemma OtherCall(H: Hash, v: World, a: Action, env: Env)
    requires Inv(H, v) && CallEnds(H, v) && !v.client.AwaitAck? && IsTransfer(a) && Reliable(a.env) && Reliable(env)
    ensures AlwaysMatches(H, Read(H, v, env), a)
  {
    hide Pending, End, Receive, WillReturn, Read, Continues, FirstFrame, Stale, Matched;
    var u := Read(H, v, env);
    BackFromOther(H, v, env);
    IdleFits(H, u);
    forall mid, rest | Continues(H, u, a, mid, rest) ensures Matched(FirstFrame(H, u, a, mid, rest)) {
      FirstFrameMatches(H, u, a, mid, rest);
    }
  }

  /** The exact condition, in terms of what a caller knows: after any run in which replies have matched so far, let a call
      come to its end. The next upload or delta sync takes its own reply, for every clock and every interleaving, if and
      only if the call that ended was not an upload. After an upload there even is a clock for which it never does. */
  lemma TransferMatchesIff(H: Hash, w: World, acts: seq<Action>, a: Action)
    requires Connected(w) && Runs(H, w, acts) && Careful(H, w, acts) && CallEnds(H, After(H, w, acts))
    requires IsTransfer(a) && Reliable(a.env)
    ensures var v := After(H, w, acts);
            && ((forall env | Reliable(env) :: AlwaysMatches(H, Read(H, v, env), a)) <==> !v.client.AwaitAck?)
            && (v.client.AwaitAck? ==> exists env :: Reliable(env) && NeverMatches(H, Read(H, v, env), a))
  {
    ReachableInv(H, w, acts);
    var v := After(H, w, acts);
    hide Runs, After, Careful, Inv, AlwaysMatches, NeverMatches, Read;
    if v.client.AwaitAck? {
      var env := TickedUpload(H, v, a);
    } else {
      forall env | Reliable(env) ensures AlwaysMatches(H, Read(H, v, env), a) {
        OtherCall(H, v, a, env);
      }
    }
  }

  // ---- Returning ---------------------------------------------------------------------------------------------

  /** Nothing is under way and the client has nothing to read, or does not want to read. */
  predicate Quiescent(w: World) {
    w.toServer == [] && (w.toClient == [] || w.client.Idle? || w.client.Failed?)
  }

  lemma {:induction false} OutcomeKept(H: Hash, w: World, rest: seq<Action>)
    requires Inv(H, w) && Runs(H, w, rest) && NoCalls(rest)
    ensures var end := After(H, w, rest);
            && Inv(H, end)
            && (WillReturn(H, end, Pending(H, end), End(H, end)) <==> WillReturn(H, w, Pending(H, w), End(H, w)))
    decreases |rest|
  {
    if rest != [] {
      assert Disciplined(w, rest[0]);
      hide Inv, Step, WillReturn, Pending, End;
      StepInv(H, w, rest[0]);
      OutcomeKept(H, Step(H, w, rest[0]), rest[1..]);
    }
  }

  lemma RestMeansReturned(H: Hash, w: World)
    requires Inv(H, w) && Quiescent(w)
    ensures w.client.Idle? <==> WillReturn(H, w, Pending(H, w), End(H, w))
  {
    assert Future(H, w.server, w.toServer) == [];
  }

  /** Which calls return. After any run in which replies have matched so far, call `a`. On every continuation without further
      calls: the client is back only if `Returns` holds of the server's state when the request reaches it, and once nothing
      more can happen it is back exactly then. */
  lemma CallReturnsIff(H: Hash, w: World, acts: seq<Action>, a: Action, rest: seq<Action>)
    requires Connected(w) && Runs(H, w, acts) && Careful(H, w, acts)
    requires IsCall(a) && Reliable(a.env) && After(H, w, acts).client.Idle? && Disciplined(After(H, w, acts), a)
    requires Runs(H, Call(H, After(H, w, acts), a), rest) && NoCalls(rest)
    ensures var v := After(H, w, acts);
            var end := After(H, Call(H, v, a), rest);
            && (end.client.Idle? ==> Returns(H, End(H, v), v.bs, a))
            && (Quiescent(end) ==> (end.client.Idle? <==> Returns(H, End(H, v), v.bs, a)))
  {
    ReachableInv(H, w, acts);
    var v := After(H, w, acts);
    hide Runs, After, Careful, Pending, End, Returns, Call;
    CallFits(H, v, a);
    StepInv(H, v, a);
    OutcomeKept(H, Call(H, v, a), rest);
    var end := After(H, Call(H, v, a), rest);
    if Quiescent(end) {
      RestMeansReturned(H, end);
    }
  }

  /** `sync_file`, spelled out: it comes back if and only if the server has the file and there is no local file, or the
      digests are equal and not empty, or the last block of the local file is short and is sent. */
  lemma SyncFileReturnsIff(H: Hash, w: World, acts: seq<Action>, p: Path, C: seq<byte>, env: Env, rest: seq<Action>)
    requires Connected(w) && Runs(H, w, acts) && Careful(H, w, acts) && After(H, w, acts).client.Idle? && Reliable(env)
    requires Runs(H, Call(H, After(H, w, acts), SyncFile(p, Some(C), env)), rest) && NoCalls(rest)
    ensures var v := After(H, w, acts);
            var files := End(H, v).files;
            var end := After(H, Call(H, v, SyncFile(p, Some(C), env)), rest);
            var back := p in files
                            && ((H(C) != "" && H(C) == H(files[p]))
                                || DeltaSession.EndsShort(|C|, v.bs, v.bs, DeltaSession.SentOrder(H, C, files[p], v.bs)));
            && (end.client.Idle? ==> back)
            && (Quiescent(end) ==> (end.client.Idle? <==> back))
  {
    CallReturnsIff(H, w, acts, SyncFile(p, Some(C), env), rest);
    hide Runs, After, Careful, Call, End;
  }

  // ---- What a download brings --------------------------------------------------------------------------------

  /** A download of `p` from a server that stores `files`: under way, or done with the stored content. */
  ghost predicate Downloading(H: Hash, w: World, files: Files, p: Path) {
    && End(H, w).files == files
    && match w.client
       case AwaitHeader(_, q) => q == p
       case AwaitRaw(q, _) => q == p
       case Idle(_) => p in files && p in w.got && w.got[p] == files[p]
       case _ => false
  }

  lemma DownloadingStep(H: Hash, w: World, files: Files, p: Path, a: Action)
    requires Inv(H, w) && Downloading(H, w, files, p) && Enabled(w, a) && !IsCall(a) && EnvOk(a)
    ensures Downloading(H, Step(H, w, a), files, p)
  {
    hide Pending, End, WillReturn, Receive;
    if a.ServerStep? {
      ServerStepKeepsPending(H, w);
    } else {
      HeadTaken(H, w);
      hide HeaderDue, Noise;
      if w.client.AwaitHeader? {
        HeaderRead(H, Content(End(H, w).files, p), w.op, Pending(H, w));
      }
      SameChannels(H, Read(H, w, a.env), w.(toClient := w.toClient[1..]));
    }
  }

  lemma {:induction false} DownloadingRun(H: Hash, w: World, files: Files, p: Path, rest: seq<Action>)
    requires Inv(H, w) && Downloading(H, w, files, p) && Runs(H, w, rest) && NoCalls(rest)
    ensures Downloading(H, After(H, w, rest), files, p)
    decreases |rest|
  {
    if rest != [] {
      assert Disciplined(w, rest[0]);
      hide Inv, Step, WillReturn, Pending, End, Downloading;
      DownloadingStep(H, w, files, p, rest[0]);
      StepInv(H, w, rest[0]);
      DownloadingRun(H, Step(H, w, rest[0]), files, p, rest[1..]);
    }
  }

  /** After every run, a download that comes back has brought exactly what the server stored when the request reached it,
      past whatever stale frame was in the way, and its digest check has passed. */
  lemma DownloadArrives(H: Hash, w: World, acts: seq<Action>, p: Path, env: Env, rest: seq<Action>)
    requires Connected(w) && Runs(H, w, acts) && Careful(H, w, acts) && After(H, w, acts).client.Idle? && Reliable(env)
    requires Runs(H, Call(H, After(H, w, acts), Download(p, env)), rest) && NoCalls(rest)
    ensures var v := After(H, w, acts);
            var end := After(H, Call(H, v, Download(p, env)), rest);
            end.client.Idle? ==> p in End(H, v).files && p in end.got && end.got[p] == End(H, v).files[p]
  {
    ReachableInv(H, w, acts);
    var v, a := After(H, w, acts), Download(p, env);
    hide Runs, After, Careful, Pending, End, Receive, RequestOf;
    CallPending(H, v, a);
    IdleOutside(H, v);
    DownloadReply(H, End(H, v), v.bs, p, env);
    StepInv(H, v, a);
    hide Inv;
    DownloadingRun(H, Call(H, v, a), End(H, v).files, p, rest);
  }

  lemma IdleOutside(H: Hash, v: World)
    requires Inv(H, v) && v.client.Idle?
    ensures End(H, v).upload.None?
  {
    hide Pending, End;
  }

  // ---- Giving up ----------------------------------------------------------------------------------------------

  /** The client reads `n` frames. */
  ghost function ReadMany(H: Hash, w: World, env: Env, n: nat): World
    requires n <= |w.toClient|
    ensures w.client == AwaitList(0) && (forall i :: 0 <= i < n ==> !w.toClient[i].val.ListResponse?) && n <= 100 ==>
              ReadMany(H, w, env, n) == w.(toClient := w.toClient[n..], client := if n == 100 then Failed else AwaitList(n))
  {
    if n == 0 then w else
      var v := ReadMany(H, w, env, n - 1);
      if v.toClient == [] then v else Read(H, v, env)
  }

  /** `read_expected` skips ninety-nine unexpected frames and gives up at the hundredth, whatever they are. */
  lemma GivesUpAtHundred(H: Hash, w: World, env: Env)
    requires w.client == AwaitList(0) && |w.toClient| >= 100
    requires forall i :: 0 <= i < 100 ==> !w.toClient[i].val.ListResponse?
    ensures ReadMany(H, w, env, 99).client == AwaitList(99) && ReadMany(H, w, env, 100).client.Failed?
  {
  }

  // ---- Every call settles ----------------------------------------------------------------------------------------

  function Rank(c: Client): nat {
    match c
    case AwaitNegotiation(_, job) => if job.Some? then 3 else 1
    case AwaitHeader(_, _) => 2
    case AwaitBlockRequest(_, _) => 2
    case Idle(_) => 0
    case Failed => 0
    case _ => 1
  }

  /** Every step but a new call brings client and server closer to rest. */
  lemma StepSettles(H: Hash, w: World, a: Action)
    requires Enabled(w, a) && !IsCall(a)
    ensures var w' := Step(H, w, a);
            || Rank(w'.client) < Rank(w.client)
            || (w'.client == w.client && |w'.toServer| < |w.toServer|)
            || (Rank(w'.client) == Rank(w.client) && |w'.toServer| == |w.toServer| && |w'.toClient| < |w.toClient|)
  {
    hide Receive;
  }

  /** So every call can be carried on until nothing more happens. */
  lemma {:induction false} Settles(H: Hash, w: World) returns (rest: seq<Action>)
    ensures Runs(H, w, rest) && NoCalls(rest) && Quiescent(After(H, w, rest))
    decreases Rank(w.client), |w.toServer|, |w.toClient|
  {
    if Quiescent(w) {
      rest := [];
    } else {
      var a := if w.toServer != [] then ServerStep else ClientRead(Env(false, Done, true, true));
      StepSettles(H, w, a);
      hide Step, Rank;
      var more := Settles(H, Step(H, w, a));
      rest := [a] + more;
      assert rest[1..] == more;
    }
  }

  // ---- What goes wrong otherwise -----------------------------------------------------------------------------------

  lemma {:induction false} Extend(H: Hash, w: World, acts: seq<Action>, a: Action)
    requires Runs(H, w, acts) && Enabled(After(H, w, acts), a) && EnvOk(a)
    ensures Runs(H, w, acts + [a]) && After(H, w, acts + [a]) == Step(H, After(H, w, acts), a)
    decreases |acts|
  {
    hide Step;
    if acts == [] {
      assert acts + [a] == [a];
    } else {
      assert (acts + [a])[1..] == acts[1..] + [a];
      Extend(H, Step(H, w, acts[0]), acts[1..], a);
    }
  }

  /** One whole upload by the client and the server: the acknowledgement is read, a progress frame is left over. */
  lemma UploadLeavesProgress(H: Hash, w: World, p: Path, d: seq<byte>, env: Env) returns (acts: seq<Action>)
    requires Connected(w) && d != [] && Reliable(env) && env.ticked
    ensures Runs(H, w, acts)
    ensures var end := After(H, w, acts);
            && end.client == Idle(true) && end.op == w.op + 1 && end.bs == w.bs
            && end.toServer == [] && end.toClient == [Tagged(w.op + 1, Progress(|d|, |d|))]
            && end.server == w.server.(files := UploadSession.Saved(w.server.files, p, d))
  {
    hide Receive, UploadSession.Saved, AllSignatures, Branch;
    Extend(H, w, [], Action.Upload(p, d, env));
    var a1 := [Action.Upload(p, d, env)];
    assert [] + a1 == a1;
    var w1 := After(H, w, a1);
    assert w1.toServer == [Tagged(w.op + 1, Input(UploadRequest(p, |d|, H(d)), env))];
    UploadSession.UploadRequested(H, w.server, p, |d|, H(d), env);
    Extend(H, w, a1, ServerStep);
    var a2 := a1 + [ServerStep];
    var w2 := After(H, w, a2);
    assert w2.toClient == [Tagged(w.op + 1, UploadAck)];
    Extend(H, w, a2, ClientRead(env));
    var a3 := a2 + [ClientRead(env)];
    var w3 := After(H, w, a3);
    assert w3.toServer == [Tagged(w.op + 1, Input(RawData(d), env))];
    UploadSession.RawFrameLeftover(H, w.server, p, d, env);
    Extend(H, w, a3, ServerStep);
    acts := a3 + [ServerStep];
    assert After(H, w, acts).toClient == [Tagged(w.op + 1, Progress(|d|, |d|))];
  }

  /** After two uploads in a row, the progress frame of the first is taken as the acknowledgement of the second. */
  lemma BackToBackUploadsMismatch(H: Hash, w: World, p: Path, d: seq<byte>, env: Env) returns (acts: seq<Action>)
    requires Connected(w) && d != [] && Reliable(env) && env.ticked
    ensures Runs(H, w, acts)
    ensures var end := After(H, w, acts);
            end.log != [] && !Matched(end.log[|end.log| - 1]) && end.client.Failed?
  {
    var a4 := UploadLeavesProgress(H, w, p, d, env);
    hide UploadSession.Saved, Runs, After;
    Extend(H, w, a4, Action.Upload(p, d, env));
    var a5 := a4 + [Action.Upload(p, d, env)];
    Extend(H, w, a5, ClientRead(env));
    acts := a5 + [ClientRead(env)];
  }

  /** A progress frame taken for a block request makes the client send one block that nobody asked for. If that block is
      short, the server publishes it, over whatever the temp file held, as the whole file. */
  lemma ProgressTakenForRequest(H: Hash, v: World, n: nat, total: nat, env: Env)
    requires v.client.AwaitBlockRequest? && v.toClient != [] && v.toClient[0].val == Progress(n, total) && n > 0
    requires End(H, v).upload.None? && End(H, v).blockSize == v.bs && Reliable(env)
    requires DeltaSession.EndsShort(|v.client.file|, v.bs, v.bs, [U32(n)])
    ensures var C, T := v.client.file, DeltaSession.Held(End(H, v).files, v.client.path);
            var u := Read(H, v, env);
            && u.client == AwaitComplete
            && v.client.path in End(H, u).files
            && (End(H, u).files[v.client.path] == C <==> DeltaSession.RestFits(T, C, v.bs, [U32(n)]))
  {
    hide End, Serve, Read, DeltaSession.RestFits, DeltaSession.EndsShort, DeltaSession.Held, U32, Kept, BlocksFor,
         DeltaSession.BlockInputs, Blocks.InFile;
    UnaskedBlock(H, v, n, total, env);
    KeptOne(U32(n), |v.client.file|, v.bs);
    OneBlock(H, End(H, v), v.client.path, v.client.file, v.bs, U32(n), env);
  }

  lemma UnaskedBlock(H: Hash, v: World, n: nat, total: nat, env: Env)
    requires v.client.AwaitBlockRequest? && v.toClient != [] && v.toClient[0].val == Progress(n, total) && n > 0
    ensures var ins := DeltaSession.BlockInputs(v.client.path, Sent(H, v.client.file, v.bs, [U32(n)]), env);
            var u := Read(H, v, env);
            u.client == AwaitComplete && End(H, u) == Serve(H, End(H, v), ins).state
  {
    hide Pending, End, Serve, U32, Sent, DeltaSession.BlockInputs;
    var ins := DeltaSession.BlockInputs(v.client.path, Sent(H, v.client.file, v.bs, [U32(n)]), env);
    var rest := v.(toClient := v.toClient[1..]);
    HeadTaken(H, v);
    SendingAppends(H, rest, v.op, ins);
    SameChannels(H, Read(H, v, env), rest.(toServer := rest.toServer + Tag(v.op, ins)));
  }

  lemma KeptOne(i: nat, size: nat, bs: nat)
    requires DeltaSession.EndsShort(size, bs, bs, [i])
    ensures Kept([i], size, bs) == [i] && Blocks.InFile([i], size, bs)
  {
    assert [i][|[i]| - 1] == i && [i][1..] == [];
  }

  lemma OneBlock(H: Hash, s: State, p: Path, C: seq<byte>, bs: BlockSize, i: nat, env: Env)
    requires s.upload.None? && s.blockSize == bs && Reliable(env)
    requires Blocks.InFile([i], |C|, bs) && DeltaSession.EndsShort(|C|, bs, bs, [i])
    ensures var files := Serve(H, s, DeltaSession.BlockInputs(p, BlocksFor(H, C, bs, [i]), env)).state.files;
            p in files && (files[p] == C <==> DeltaSession.RestFits(DeltaSession.Held(s.files, p), C, bs, [i]))
  {
    assert bs > 0;
    hide Serve, Blocks.WriteAll, DeltaSession.RestFits, DeltaSession.EndsShort;
    DeltaSession.Finalisation(H, s, p, C, bs, [i], env);
    DeltaSession.PublishedEqualsClientIff(DeltaSession.Held(s.files, p), C, bs, bs, [i]);
  }

  /** A run that ends with a destroyed file: a one-octet upload, then a delta sync of a newer version of the same file. The
      leftover progress frame reads as a request for block 1, the short last block, and the server publishes that block
      alone. */
  lemma UploadThenDeltaDestroys(H: Hash, w: World, p: Path, x: byte, env: Env) returns (acts: seq<Action>)
    requires Connected(w) && w.bs > 1 && Reliable(env) && env.ticked
    ensures Runs(H, w, acts)
    ensures var C := DeltaSession.Ones(w.bs, 2);
            var end := After(H, w, acts);
            && end.log != [] && !Matched(end.log[|end.log| - 1]) && end.client == AwaitComplete
            && p in End(H, end).files && End(H, end).files[p] != C
  {
    var C := DeltaSession.Ones(w.bs, 2);
    var a4 := UploadLeavesProgress(H, w, p, [x], env);
    var u := After(H, w, a4);
    hide Runs, After, UploadSession.Saved;
    Extend(H, w, a4, Delta(p, C, env));
    var v := Call(H, u, Delta(p, C, env));
    var a5 := a4 + [Delta(p, C, env)];
    Extend(H, w, a5, ClientRead(env));
    acts := a5 + [ClientRead(env)];
    TakesOne(H, v, env);
    AfterUpload(H, w.server, u, p, x, C, env);
    ProgressTakenForRequest(H, v, 1, 1, env);
    hide Read, Call, Pending, End, DeltaSession.RestFits;
    OnesNeedMore(w.bs);
  }

  lemma AfterUpload(H: Hash, s: State, u: World, p: Path, x: byte, C: seq<byte>, env: Env)
    requires u.toServer == [] && u.server == s.(files := UploadSession.Saved(s.files, p, [x])) && s.upload.None?
    ensures var v := Call(H, u, Delta(p, C, env));
            End(H, v) == u.server && DeltaSession.Held(u.server.files, p) == []
  {
    assert End(H, u) == u.server;
    hide Pending, End, Receive, RequestOf, UploadSession.Saved, Call;
    CallPending(H, u, Delta(p, C, env));
    AskingChangesNothing(H, u.server, u.bs, Delta(p, C, env));
    UploadSession.SavedContent(s.files, p, [x]);
  }

  lemma AskingChangesNothing(H: Hash, s: State, bs: BlockSize, a: Action)
    requires a.Delta? && s.upload.None?
    ensures Receive(H, s, RequestOf(H, bs, a)).state == s
  {
    hide RequestList, AllSignatures;
  }

  lemma OnesNeedMore(bs: BlockSize)
    requires bs > 1
    ensures var C := DeltaSession.Ones(bs, 2);
            U32(1) == 1 && DeltaSession.EndsShort(|C|, bs, bs, [1]) && !DeltaSession.RestFits([], C, bs, [1])
  {
    var C := DeltaSession.Ones(bs, 2);
    assert 1 * bs == bs && 0 * bs == 0;
    assert [1][|[1]| - 1] == 1;
    assert Blocks.At(bs, 0, 0) && C[0] == 1;
  }
}
