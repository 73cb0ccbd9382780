/** Whole-file download: what the server answers, and that the octets the sender puts on the wire are that answer. */
module DownloadSession {
  import opened Bytes
  import opened DeltaSync
  import opened Storage
  import opened Server
  import Wire
  import Sockets
  import ZeroCopy

  /** A download request is answered with the size and digest of the stored file and with its octets from the offset on, one
      by one; a missing or empty file, or an offset past the end, is refused. */
  lemma DownloadDelivers(H: Hash, s: State, p: Path, offset: nat, env: Env)
    requires s.upload.None?
    ensures var o := Receive(H, s, Input(DownloadRequest(p, offset), env));
            && o.state == s
            && if p in s.files && offset < |s.files[p]| then
                 var f := s.files[p];
                 && |o.replies| == 2 && o.replies[0] == DownloadHeader(p, |f|, H(f), offset) && o.replies[1].RawReply?
                 && |o.replies[1].data| == |f| - offset
                 && forall k :: 0 <= k < |f| - offset ==> o.replies[1].data[k] == f[offset + k]
               else o.replies == [Error(3)]
  {
  }

  /** How a message becomes the payload of a frame. */
  type Coder = Reply -> seq<byte>

  /** The two frames that stand for a download's answer. */
  ghost function Frames(code: Coder, replies: seq<Reply>): seq<Wire.WireFrame>
    requires |replies| == 2 && replies[1].RawReply?
  {
    [Wire.WireFrame(21, code(replies[0])), Wire.WireFrame(0xFE, replies[1].data)]
  }

  /** `handle_zero_copy_download_request` over a socket: on success, for every script of short and interrupted calls, what was
      sent decodes, with either reader, to exactly the frames of the answer; a refused request sends nothing. */
  method SendDownload(sock: Sockets.Socket, H: Hash, s: State, p: Path, offset: nat, code: Coder, zeroCopy: bool,
                      readScript: seq<Sockets.Outcome>, canOpen: bool) returns (ok: bool, ghost sent: seq<byte>)
    requires s.upload.None? && (p in s.files ==> |s.files[p]| < TWO64)
    requires forall r :: |code(r)| + 5 <= Sockets.MAX_INT
    modifies sock`outgoing, sock`sends
    ensures ok ==> sock.outgoing == old(sock.outgoing) + sent
    ensures ok ==> forall dec ::
              var replies := Download(H, s, p, offset);
              |replies| == 2 && replies[1].RawReply? && Wire.DecodeAll(dec, sent) == Some(Frames(code, replies))
    ensures Download(H, s, p, offset) == [Error(3)] ==> !ok && sock.outgoing == old(sock.outgoing)
  {
    DownloadDelivers(H, s, p, offset, Env(false, Done, true, true));
    var stored := Content(s.files, p);
    var size := if p in s.files then |s.files[p]| else 0;
    var sha := if p in s.files then H(s.files[p]) else "";
    var header := code(DownloadHeader(p, size, sha, offset));
    ok := ZeroCopy.SendFile(sock, stored, offset, header, zeroCopy, readScript, canOpen);
    sent := [];
    if ok {
      ghost var data := stored.value[offset..];
      sent := ZeroCopy.DownloadBytes(header, data);
      forall dec ensures Wire.DecodeAll(dec, sent) == Some(Frames(code, Download(H, s, p, offset))) {
        ZeroCopy.DownloadDecodes(dec, header, data);
      }
    }
  }
}
