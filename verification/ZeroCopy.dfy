/** Streaming a file to the client (server/src/zero_copy_sender.cpp): a header frame, a raw-data header, then the
    file's octets by `sendfile` or by a read/send loop. */
module ZeroCopy {
  import opened Bytes
  import opened Wire
  import opened Sockets

  const MSG_ZERO_COPY_DOWNLOAD_HEADER: byte := 21
  const SENDFILE_MAX: nat := 0x7FFF_FF00
  const BUFFER_SIZE: nat := 256 * 1024

  /** An open file: content, position, and what its read calls will do. */
  class FileHandle {
    const content: seq<byte>
    var position: nat
    var readScript: seq<Outcome>

    constructor (content: seq<byte>, readScript: seq<Outcome>)
      ensures this.content == content && position == 0 && this.readScript == readScript
    {
      this.content, position, this.readScript := content, 0, readScript;
    }

    /** `read(2)`: zero or less is end of file or any error, interruption included. */
    method Read(count: nat) returns (n: int, data: seq<byte>)
      requires 0 < count && position <= |content|
      modifies this
      ensures position <= |content|
      ensures n > 0 ==> n == |data| <= count && old(position) + n == position && data == content[old(position)..position]
      ensures n <= 0 ==> old(position) == |content| || (old(readScript) != [] && !old(readScript)[0].Up?)
      ensures readScript == if old(readScript) == [] then [] else old(readScript)[1..]
    {
      var o := if readScript == [] then Up(count) else readScript[0];
      readScript := if readScript == [] then [] else readScript[1..];
      match o
      case Up(k) =>
        var m := Min(Min(count, Max(1, k)), |content| - position);
        data := content[position..position + m];
        position := position + m;
        return m, data;
      case _ => return -1, [];
    }
  }

  /** Something of `whole` has been sent after `before`, but not all of it. */
  ghost predicate CutShort(before: seq<byte>, after: seq<byte>, whole: seq<byte>) {
    before <= after && after < before + whole
  }

  lemma CutAt(before: seq<byte>, content: seq<byte>, offset: nat, at: nat, end: nat)
    requires offset <= at < end <= |content|
    ensures CutShort(before, before + content[offset..at], content[offset..end])
  {
    assert content[offset..end] == content[offset..at] + content[at..end];
    assert before + content[offset..end] == before + content[offset..at] + content[at..end];
  }

  lemma SliceJoin(before: seq<byte>, content: seq<byte>, a: nat, b: nat, c: nat)
    requires a <= b <= c <= |content|
    ensures before + content[a..b] + content[b..c] == before + content[a..c]
  {
    assert content[a..b] + content[b..c] == content[a..c];
  }

  lemma CutEarlier(before: seq<byte>, after: seq<byte>, first: seq<byte>, second: seq<byte>)
    requires CutShort(before, after, first)
    ensures CutShort(before, after, first + second)
  {
    assert before + (first + second) == before + first + second;
  }

  lemma CutLater(before: seq<byte>, after: seq<byte>, first: seq<byte>, second: seq<byte>)
    requires CutShort(before + first, after, second)
    ensures CutShort(before, after, first + second)
  {
    assert before + (first + second) == before + first + second;
  }

  lemma NothingOf(before: seq<byte>, second: seq<byte>)
    requires second != []
    ensures CutShort(before, before, second)
  {
  }

  /** `sendfile(2)` from `offset`; the kernel advances the offset by what it sent. */
  method SendFileCall(sock: Socket, content: seq<byte>, offset: nat, chunk: nat) returns (n: int, again: bool)
    requires 0 < chunk && offset + chunk <= |content|
    modifies sock`outgoing, sock`sends
    ensures sock.sends == if old(sock.sends) == [] then [] else old(sock.sends)[1..]
    ensures n < 0 ==> sock.outgoing == old(sock.outgoing) && old(sock.sends) != []
    ensures n < 0 ==> old(sock.sends)[0] == (if again then Again else Fault)
    ensures n >= 0 ==> n <= chunk && sock.outgoing == old(sock.outgoing) + content[offset..offset + n]
    ensures n == 0 ==> old(sock.sends) != []
  {
    var o := if sock.sends == [] then Up(chunk) else sock.sends[0];
    sock.sends := if sock.sends == [] then [] else sock.sends[1..];
    match o
    case Again => return -1, true;
    case Fault => return -1, false;
    case Nothing => return 0, false;
    case Up(k) =>
      var m := Min(chunk, Max(1, k));
      sock.outgoing := sock.outgoing + content[offset..offset + m];
      return m, false;
  }

  method SendFileLinux(sock: Socket, content: seq<byte>, offset: nat, totalSize: nat) returns (ok: bool)
    requires offset + totalSize <= |content|
    modifies sock`outgoing, sock`sends
    ensures ok ==> sock.outgoing == old(sock.outgoing) + content[offset..offset + totalSize]
    ensures !ok ==> !NoFault(old(sock.sends))
    ensures !ok ==> CutShort(old(sock.outgoing), sock.outgoing, content[offset..offset + totalSize])
  {
    var remaining := totalSize;
    var fileOffset := offset;
    while remaining > 0
      invariant 0 <= remaining <= totalSize && fileOffset + remaining == offset + totalSize
      invariant sock.outgoing == old(sock.outgoing) + content[offset..fileOffset]
      invariant Within(sock.sends, old(sock.sends))
      decreases remaining + |sock.sends|
    {
      var chunk := Min(remaining, SENDFILE_MAX);
      var sent, again := SendFileCall(sock, content, fileOffset, chunk);
      if sent < 0 {
        if again {
          continue;
        }
        CutAt(old(sock.outgoing), content, offset, fileOffset, offset + totalSize);
        return false;
      }
      assert content[offset..fileOffset] + content[fileOffset..fileOffset + sent] == content[offset..fileOffset + sent];
      fileOffset := fileOffset + sent;
      remaining := remaining - sent;
    }
    return true;
  }

  /** One round of the fallback loop: read a chunk, send it. `gone` octets have gone out, on failure fewer than asked for. */
  method SendChunk(sock: Socket, file: FileHandle, toRead: nat) returns (n: int, ghost gone: nat)
    requires 0 < toRead <= MAX_INT && file.position + toRead <= |file.content|
    modifies sock`outgoing, sock`sends, file
    ensures Within(file.readScript, old(file.readScript))
    ensures old(file.position) + gone <= |file.content|
    ensures sock.outgoing == old(sock.outgoing) + file.content[old(file.position)..old(file.position) + gone]
    ensures if n > 0 then gone == n <= toRead && file.position == old(file.position) + n else gone < toRead
    ensures NoFault(old(sock.sends)) && Nothing !in old(sock.sends) ==> NoFault(sock.sends) && Nothing !in sock.sends
    ensures n <= 0 ==> !NoFault(old(sock.sends)) || Nothing in old(sock.sends) || exists o :: o in old(file.readScript) && !o.Up?
  {
    ghost var before := file.position;
    var data;
    n, data := file.Read(toRead);
    if n <= 0 {
      return 0, 0;
    }
    var sent := WriteExact(sock, data);
    if sent != n {
      ghost var k :| 0 <= k < |data| && sock.outgoing == old(sock.outgoing) + data[..k];
      assert data[..k] == file.content[before..before + k];
      return 0, k;
    }
    gone := n;
  }

  method SendFileFallback(sock: Socket, file: FileHandle, offset: nat, totalSize: nat) returns (ok: bool)
    requires file.position == 0 && offset + totalSize <= |file.content|
    modifies sock`outgoing, sock`sends, file
    ensures ok ==> sock.outgoing == old(sock.outgoing) + file.content[offset..offset + totalSize]
    ensures !ok ==> !NoFault(old(sock.sends)) || Nothing in old(sock.sends) || exists o :: o in old(file.readScript) && !o.Up?
    ensures !ok ==> CutShort(old(sock.outgoing), sock.outgoing, file.content[offset..offset + totalSize])
  {
    hide CutShort;
    if offset > 0 {
      file.position := offset;
    }
    var remaining := totalSize;
    while remaining > 0
      invariant 0 <= remaining <= totalSize && file.position + remaining == offset + totalSize
      invariant sock.outgoing == old(sock.outgoing) + file.content[offset..file.position]
      invariant NoFault(old(sock.sends)) && Nothing !in old(sock.sends) ==> NoFault(sock.sends) && Nothing !in sock.sends
      invariant Within(file.readScript, old(file.readScript))
      decreases remaining
    {
      ghost var at := file.position;
      ghost var gone;
      var n;
      n, gone := SendChunk(sock, file, Min(remaining, BUFFER_SIZE));
      SliceJoin(old(sock.outgoing), file.content, offset, at, at + gone);
      if n <= 0 {
        CutAt(old(sock.outgoing), file.content, offset, at + gone, offset + totalSize);
        return false;
      }
      remaining := remaining - n;
    }
    return true;
  }

  /** The bytes of a whole download: one header frame, one raw frame. */
  ghost function DownloadBytes(header: seq<byte>, data: seq<byte>): seq<byte> {
    EncodeAll(Cpp, [Standard(MSG_ZERO_COPY_DOWNLOAD_HEADER, header), Raw(data)])
  }

  lemma DownloadBytesAre(header: seq<byte>, data: seq<byte>)
    ensures DownloadBytes(header, data) == Preamble(header, |data|) + data
  {
    hide CppEncodeFrame, CppEncodeRawDataHeader;
    var os := [Standard(MSG_ZERO_COPY_DOWNLOAD_HEADER, header), Raw(data)];
    assert os[1..] == [Raw(data)];
    assert os[1..][1..] == [];
    assert EncodeAll(Cpp, os[1..]) == CppEncodeRawDataHeader(|data|) + data + [];
  }

  /** A download that breaks off in the file's octets and is followed by the session's error frame. No reader ever sees that
      frame: its octets are taken for the missing file octets, or the reader goes on waiting for more. */
  lemma ErrorFrameSwallowed(dec: Peer, data: seq<byte>, k: nat, error: seq<byte>)
    requires k < |data| < TWO64
    ensures ReadFrame(dec, CppEncodeRawDataHeader(|data|) + data[..k] + error) ==
              if k + |error| < |data| then Rejected
              else Accepted(WireFrame(MSG_RAW_DATA, data[..k] + error[..|data| - k]), RAW_HEADER_SIZE + |data|)
  {
    hide CppEncodeRawDataHeader, ReadFrame;
    var body := data[..k] + error;
    var s := CppEncodeRawDataHeader(|data|) + data[..k] + error;
    FrameSize([], |data|);
    if |body| < |data| {
      var d := body + Zeros(|data| - |body|);
      var frame := Encode(Cpp, Raw(d));
      assert frame == CppEncodeRawDataHeader(|data|) + d;
      assert s == frame[..|s|];
      StrictPrefixRejected(Cpp, dec, Raw(d), |s|);
    } else {
      var d := body[..|data|];
      var frame := Encode(Cpp, Raw(d));
      assert d == data[..k] + error[..|data| - k];
      assert frame == CppEncodeRawDataHeader(|data|) + d;
      assert s == frame + body[|data|..];
      FrameRoundTrip(Cpp, dec, Raw(d), body[|data|..]);
    }
  }

  /** Either peer decodes a download into exactly the header frame and one raw frame with the file's octets. */
  lemma DownloadDecodes(dec: Peer, header: seq<byte>, data: seq<byte>)
    requires |header| < RAW_DATA_SENTINEL && |data| < TWO64
    ensures DecodeAll(dec, DownloadBytes(header, data))
         == Some([WireFrame(MSG_ZERO_COPY_DOWNLOAD_HEADER, header), WireFrame(MSG_RAW_DATA, data)])
  {
    var os := [Standard(MSG_ZERO_COPY_DOWNLOAD_HEADER, header), Raw(data)];
    StreamRoundTrip(Cpp, dec, os);
    assert Views(os) == [View(os[0]), View(os[1])];
  }

  /** No failing call: every send makes progress or is to be repeated, every read makes progress. */
  ghost predicate Smooth(sends: seq<Outcome>, readScript: seq<Outcome>) {
    NoFault(sends) && Nothing !in sends && forall o :: o in readScript ==> o.Up?
  }

  /** The octets of the file, by whichever loop the platform has. */
  method StreamFile(sock: Socket, content: seq<byte>, offset: nat, zeroCopy: bool, readScript: seq<Outcome>)
    returns (ok: bool)
    requires offset <= |content|
    modifies sock`outgoing, sock`sends
    ensures ok ==> sock.outgoing == old(sock.outgoing) + content[offset..]
    ensures !ok ==> CutShort(old(sock.outgoing), sock.outgoing, content[offset..])
    ensures Smooth(old(sock.sends), readScript) ==> ok
  {
    var bytesToSend := |content| - offset;
    if zeroCopy {
      ok := SendFileLinux(sock, content, offset, bytesToSend);
    } else {
      var file := new FileHandle(content, readScript);
      ok := SendFileFallback(sock, file, offset, bytesToSend);
    }
    assert content[offset..offset + bytesToSend] == content[offset..];
  }

  /** The download header frame and the raw-data header. */
  method Announce(sock: Socket, header: seq<byte>, bytesToSend: nat) returns (ok: bool)
    requires |header| + 5 <= MAX_INT
    modifies sock`outgoing, sock`sends
    ensures ok ==> sock.outgoing == old(sock.outgoing) + Preamble(header, bytesToSend)
    ensures !ok ==> CutShort(old(sock.outgoing), sock.outgoing, Preamble(header, bytesToSend))
    ensures Smooth(old(sock.sends), []) ==> ok && Smooth(sock.sends, [])
  {
    hide CppEncodeFrame, CppEncodeRawDataHeader;
    FrameSize(header, bytesToSend);
    var frame := CppEncodeFrame(WireFrame(MSG_ZERO_COPY_DOWNLOAD_HEADER, header));
    var n := WriteExact(sock, frame);
    if n != |frame| {
      return false;
    }
    var rawHeader := CppEncodeRawDataHeader(bytesToSend);
    n := WriteExact(sock, rawHeader);
    return n == |rawHeader|;
  }

  ghost function Preamble(header: seq<byte>, bytesToSend: nat): seq<byte> {
    CppEncodeFrame(WireFrame(MSG_ZERO_COPY_DOWNLOAD_HEADER, header)) + CppEncodeRawDataHeader(bytesToSend)
  }

  /** `stored` is None when the path does not exist; `header` is the serialised download header; `zeroCopy` selects the
      sendfile loop, otherwise `readScript` drives the read/send loop. On success, for every script, the receiver decodes
      exactly one header frame and one raw frame holding the file from `offset` on. */
  method SendFile(sock: Socket, stored: Option<seq<byte>>, offset: nat, header: seq<byte>, zeroCopy: bool,
                  readScript: seq<Outcome>, canOpen: bool) returns (ok: bool)
    requires |header| + 5 <= MAX_INT && (stored.Some? ==> |stored.value| < TWO64)
    modifies sock`outgoing, sock`sends
    ensures stored.None? || offset >= |stored.value| ==> !ok && sock.outgoing == old(sock.outgoing)
    ensures ok ==> sock.outgoing == old(sock.outgoing) + DownloadBytes(header, stored.value[offset..])
    ensures !ok && stored.Some? && offset < |stored.value| ==>
              CutShort(old(sock.outgoing), sock.outgoing, DownloadBytes(header, stored.value[offset..]))
    ensures stored.Some? && offset < |stored.value| && canOpen && Smooth(old(sock.sends), readScript) ==> ok
  {
    if stored.None? {
      return false;
    }
    var content := stored.value;
    var totalSize := |content|;
    if totalSize == 0 || offset >= totalSize {
      return false;
    }
    var bytesToSend := totalSize - offset;
    DownloadBytesAre(header, content[offset..]);
    hide Preamble, DownloadBytes, CutShort;
    ghost var pre, before := Preamble(header, bytesToSend), sock.outgoing;
    ok := Announce(sock, header, bytesToSend);
    if !ok {
      CutEarlier(before, sock.outgoing, pre, content[offset..]);
      return false;
    }
    if !canOpen {
      NothingOf(before + pre, content[offset..]);
      CutLater(before, sock.outgoing, pre, content[offset..]);
      return false;
    }
    ok := StreamFile(sock, content, offset, zeroCopy, readScript);
    if !ok {
      CutLater(before, sock.outgoing, pre, content[offset..]);
    }
    assert old(sock.outgoing) + pre + content[offset..] == old(sock.outgoing) + (pre + content[offset..]);
  }

  lemma FrameSize(header: seq<byte>, n: nat)
    ensures |CppEncodeFrame(WireFrame(MSG_ZERO_COPY_DOWNLOAD_HEADER, header))| == 5 + |header|
    ensures |CppEncodeRawDataHeader(n)| == 13
  {
  }
}
