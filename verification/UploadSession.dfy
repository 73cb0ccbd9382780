/** Whole-file upload: the loop that reads raw frames until the declared size is reached. */
module UploadSession {
  import opened Bytes
  import opened DeltaSync
  import opened Storage
  import opened Server

  /** The payloads of the raw frames, in order; other frames contribute nothing. */
  function RawBytes(ins: seq<Input>): seq<byte> {
    if ins == [] then [] else
      RawBytes(ins[..|ins| - 1]) + if ins[|ins| - 1].msg.RawData? then ins[|ins| - 1].msg.data else []
  }

  lemma {:induction false} RawBytesGrow(ins: seq<Input>, j: nat)
    requires j <= |ins|
    ensures RawBytes(ins[..j]) <= RawBytes(ins)
  {
    if j == |ins| {
      assert ins[..j] == ins;
    } else {
      RawBytesGrow(ins[..|ins| - 1], j);
      assert ins[..|ins| - 1][..j] == ins[..j];
    }
  }

  lemma UploadStep(H: Hash, s: State, u: Upload, x: Input)
    requires u.received == |u.buffer| && |u.buffer + RawBytes([x])| < u.total
    ensures var o := Receive(H, s.(upload := Some(u)), x);
            var buffer := u.buffer + RawBytes([x]);
            && o.state == s.(upload := Some(u.(received := |buffer|, buffer := buffer)))
            && o.replies == if x.msg.RawData? && x.env.ticked then [Progress(|buffer|, u.total)] else []
  {
    assert [x][..0] == [];
    if x.msg.RawData? {
      assert RawBytes([x]) == x.msg.data;
    } else {
      assert u.buffer + RawBytes([x]) == u.buffer;
    }
  }

  lemma RawBytesSnoc(ins: seq<Input>, x: Input)
    ensures RawBytes(ins + [x]) == RawBytes(ins) + RawBytes([x])
  {
    assert (ins + [x])[..|ins|] == ins;
    assert [x][..0] == [];
  }

  /** While the declared size has not been reached: the buffer is the concatenation of the raw payloads, `received` is
      its length, nothing is written, and only progress is reported. */
  lemma {:induction false} UploadInProgress(H: Hash, s: State, u: Upload, ins: seq<Input>)
    requires u.received == |u.buffer| && |u.buffer + RawBytes(ins)| < u.total
    ensures var o := Serve(H, s.(upload := Some(u)), ins);
            && o.state == s.(upload := Some(u.(received := |u.buffer + RawBytes(ins)|, buffer := u.buffer + RawBytes(ins))))
            && forall r :: r in o.replies ==> r.Progress?
  {
    if ins != [] {
      var init, x := ins[..|ins| - 1], ins[|ins| - 1];
      assert ins == init + [x];
      RawBytesSnoc(init, x);
      UploadInProgress(H, s, u, init);
      var mid := u.(received := |u.buffer + RawBytes(init)|, buffer := u.buffer + RawBytes(init));
      assert mid.buffer + RawBytes([x]) == u.buffer + RawBytes(ins);
      UploadStep(H, s, mid, x);
      hide Receive, RawBytes;
    } else {
      assert u.buffer + RawBytes(ins) == u.buffer;
    }
  }

  /** The store after a successful upload. */
  function Saved(files: Files, p: Path, data: seq<byte>): Files {
    Publish(WriteFile(files, p, data), p)
  }

  lemma SavedContent(files: Files, p: Path, data: seq<byte>)
    ensures Content(Saved(files, p, data), p) == Some(data) && TmpPath(p) !in Saved(files, p, data)
  {
    TmpPathEnds(p);
  }

  /** The frame that reaches or passes the declared size ends the loop; the file is saved when it is hit exactly. */
  lemma UploadLastFrame(H: Hash, s: State, p: Path, total: nat, before: seq<Input>, last: Input)
    requires s.upload.None? && Reliable(last.env) && |RawBytes(before)| < total <= |RawBytes(before + [last])|
    ensures var u := Upload(p, total, 0, []);
            Serve(H, s.(upload := Some(u)), before + [last]).state ==
              if |RawBytes(before + [last])| == total then s.(files := Saved(s.files, p, RawBytes(before + [last]))) else s
  {
    var u := Upload(p, total, 0, []);
    var ins := before + [last];
    assert ins[..|ins| - 1] == before && ins[|ins| - 1] == last;
    assert u.buffer + RawBytes(before) == RawBytes(before);
    UploadInProgress(H, s, u, before);
    var mid := Serve(H, s.(upload := Some(u)), before).state;
    assert last.msg.RawData?;
    assert mid.upload.value.buffer + last.msg.data == RawBytes(ins);
    assert s.(upload := None) == s;
  }

  /** The end of an upload on a file system that may fail: the target is replaced exactly when the declared size was hit,
      everything was written and the rename succeeded. A failed write is reported, a failed rename is not. */
  lemma SaveOutcome(s: State, u: Upload, env: Env)
    ensures var o := FinishUpload(s, u, env);
            && o.state.upload.None?
            && Content(o.state.files, u.path) ==
                 (if u.received == u.total && env.write.Done? && env.canRename then Some(u.buffer) else Content(s.files, u.path))
            && o.replies == if u.received == u.total && !env.write.Done? then [Error(2)] else []
  {
    TmpPathEnds(u.path);
  }

  /** A peer that hangs up before the declared size: one error is sent and the store is as it was. */
  lemma ConnectionLost(H: Hash, s: State, p: Path, total: nat, sha: string, env: Env, ins: seq<Input>)
    requires s.upload.None? && |RawBytes(ins)| < total
    ensures var o := Serve(H, s, [Input(UploadRequest(p, total, sha), env)] + ins);
            HangUp(o.state) == Out(s, [Error(2)])
  {
    var u := Upload(p, total, 0, []);
    ServeCons(H, s, Input(UploadRequest(p, total, sha), env), ins);
    assert u.buffer + RawBytes(ins) == RawBytes(ins);
    UploadInProgress(H, s, u, ins);
    hide Serve, RawBytes;
    assert s.(upload := None) == s;
  }

  /** The number of frames the loop consumes: the shortest prefix that carries enough. */
  lemma FirstEnough(ins: seq<Input>, total: nat) returns (k: nat)
    requires total <= |RawBytes(ins)|
    ensures k <= |ins| && total <= |RawBytes(ins[..k])| && forall j :: 0 <= j < k ==> |RawBytes(ins[..j])| < total
    ensures (exists j :: 0 <= j <= |ins| && |RawBytes(ins[..j])| == total) <==> |RawBytes(ins[..k])| == total
  {
    k := 0;
    while |RawBytes(ins[..k])| < total
      invariant k <= |ins| && forall j :: 0 <= j < k ==> |RawBytes(ins[..j])| < total
      decreases |ins| - k
    {
      assert k < |ins| by { assert ins[..|ins|] == ins; }
      k := k + 1;
    }
    forall j | 0 <= j <= |ins| && |RawBytes(ins[..j])| == total ensures |RawBytes(ins[..k])| == total {
      RawBytesGrow(ins[..j], k);
      assert ins[..j][..k] == ins[..k];
    }
  }

  lemma UploadRequested(H: Hash, s: State, p: Path, total: nat, sha: string, env: Env)
    requires s.upload.None? && Reliable(env)
    ensures Receive(H, s, Input(UploadRequest(p, total, sha), env)) ==
              Out(if total == 0 then s.(files := Saved(s.files, p, [])) else s.(upload := Some(Upload(p, total, 0, []))),
                  [UploadAck])
  {
  }

  /** Exactness. After any frames that carry at least the declared number of octets, let `k` frames be those the loop
      consumes. The file is published exactly when some prefix of the frames carries the declared number of octets
      precisely; it then is the concatenation of the raw payloads, and otherwise nothing in the store has changed. */
  lemma UploadExact(H: Hash, s: State, p: Path, total: nat, sha: string, env: Env, ins: seq<Input>) returns (k: nat)
    requires s.upload.None? && Reliable(env) && forall i :: 0 <= i < |ins| ==> Reliable(ins[i].env)
    requires total <= |RawBytes(ins)|
    ensures k <= |ins| && total <= |RawBytes(ins[..k])| && forall j :: 0 <= j < k ==> |RawBytes(ins[..j])| < total
    ensures (exists j :: 0 <= j <= |ins| && |RawBytes(ins[..j])| == total) <==> |RawBytes(ins[..k])| == total
    ensures Serve(H, s, [Input(UploadRequest(p, total, sha), env)] + ins[..k]).state ==
              if |RawBytes(ins[..k])| == total then s.(files := Saved(s.files, p, RawBytes(ins[..k]))) else s
  {
    k := FirstEnough(ins, total);
    assert k > 0 ==> ins[..k][..k - 1] == ins[..k - 1];
    UploadOf(H, s, p, total, sha, env, ins[..k]);
  }

  /** The upload request followed by just the frames its loop consumes. */
  lemma UploadOf(H: Hash, s: State, p: Path, total: nat, sha: string, env: Env, xs: seq<Input>)
    requires s.upload.None? && Reliable(env) && forall i :: 0 <= i < |xs| ==> Reliable(xs[i].env)
    requires total <= |RawBytes(xs)| && (xs != [] ==> |RawBytes(xs[..|xs| - 1])| < total)
    ensures Serve(H, s, [Input(UploadRequest(p, total, sha), env)] + xs).state ==
              if |RawBytes(xs)| == total then s.(files := Saved(s.files, p, RawBytes(xs))) else s
  {
    ServeCons(H, s, Input(UploadRequest(p, total, sha), env), xs);
    UploadRequested(H, s, p, total, sha, env);
    if xs != [] {
      UploadLastFrame(H, s, p, total, xs[..|xs| - 1], xs[|xs| - 1]);
      assert xs == xs[..|xs| - 1] + [xs[|xs| - 1]];
      hide Receive, Saved, RawBytes, Serve;
    }
  }

  /** What the Rust client does: one request, then one raw frame with the whole file. The server ends up with that
      file, whatever it had before; an empty file leaves one error frame behind, any other at most one progress frame. */
  lemma ClientUpload(H: Hash, s: State, p: Path, data: seq<byte>, sha: string, e0: Env, e1: Env)
    requires s.upload.None? && Reliable(e0) && Reliable(e1)
    ensures var o := Serve(H, s, [Input(UploadRequest(p, |data|, sha), e0), Input(RawData(data), e1)]);
            && o.state == s.(files := Saved(s.files, p, data))
            && Content(o.state.files, p) == Some(data)
            && o.replies == [UploadAck] + Leftover(data, e1)
  {
    var x, y := Input(UploadRequest(p, |data|, sha), e0), Input(RawData(data), e1);
    assert [x] + [y] == [x, y];
    ServeCons(H, s, x, [y]);
    UploadRequested(H, s, p, |data|, sha, e0);
    ServeOne(H, Receive(H, s, x).state, y);
    SavedContent(s.files, p, data);
    RawFrameLeftover(H, s, p, data, e1);
    hide Receive, Saved;
  }

  /** Two runs of frames that differ at most in the digests their upload requests declare. */
  ghost predicate SameButDigests(xs: seq<Input>, ys: seq<Input>) {
    |xs| == |ys| && forall i :: 0 <= i < |xs| ==> SameButDigest(xs[i], ys[i])
  }

  predicate SameButDigest(x: Input, y: Input) {
    x == y || (x.msg.UploadRequest? && y.msg.UploadRequest? && y == x.(msg := x.msg.(sha := y.msg.sha)))
  }

  /** The declared digest is received and never looked at: the same frames with any other digests have the same replies
      and leave the same store, on every run. */
  lemma {:induction false} DigestIsIgnored(H: Hash, s: State, xs: seq<Input>, ys: seq<Input>)
    requires SameButDigests(xs, ys)
    ensures Serve(H, s, xs) == Serve(H, s, ys)
  {
    if xs != [] {
      DigestIsIgnored(H, s, xs[..|xs| - 1], ys[..|ys| - 1]);
      assert SameButDigest(xs[|xs| - 1], ys[|ys| - 1]);
    }
  }

  /** So every file can be uploaded under a digest that is not its own, and is published all the same. */
  lemma WrongDigestIsPublished(H: Hash, s: State, p: Path, data: seq<byte>, e0: Env, e1: Env) returns (sha: string)
    requires s.upload.None? && Reliable(e0) && Reliable(e1)
    ensures sha != H(data)
    ensures Content(Serve(H, s, [Input(UploadRequest(p, |data|, sha), e0), Input(RawData(data), e1)]).state.files, p) == Some(data)
  {
    sha := H(data) + "0";
    assert |sha| == |H(data)| + 1;
    ClientUpload(H, s, p, data, sha, e0, e1);
  }

  /** What an upload leaves in the client's receive queue. */
  function Leftover(data: seq<byte>, e: Env): seq<Reply> {
    if data == [] then [Error(PROTOCOL_ERROR)] else if e.ticked then [Progress(|data|, |data|)] else []
  }

  lemma RawFrameLeftover(H: Hash, s: State, p: Path, data: seq<byte>, e: Env)
    requires s.upload.None? && Reliable(e)
    ensures var before := if data == [] then s.(files := Saved(s.files, p, []))
                          else s.(upload := Some(Upload(p, |data|, 0, [])));
            Receive(H, before, Input(RawData(data), e)) == Out(s.(files := Saved(s.files, p, data)), Leftover(data, e))
  {
    assert [] + data == data;
  }
}
