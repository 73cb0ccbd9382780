/** Byte transport below the frames: `recv`, `send` and `sendfile` may do less than asked, be interrupted or fail,
    as a script decides; the loops above them must not depend on it. */
module Sockets {
  import opened Bytes
  import opened Wire

  const MAX_INT: nat := 0x7FFF_FFFF

  /** One system call. `Up(n)` moves at most `n` octets (and at least one, if any are there); `Nothing` moves none and
      reports zero; `Again` is an error that the calling loop retries (EINTR, for sendfile also EAGAIN); `Fault` is any
      other error. An exhausted script moves all it is asked to. */
  datatype Outcome = Up(n: nat) | Nothing | Again | Fault

  predicate NoFault(script: seq<Outcome>) {
    Fault !in script
  }

  class Socket {
    var incoming: seq<byte>         // still to be received before the peer's end of stream
    var outgoing: seq<byte>         // everything sent so far
    var recvs: seq<Outcome>
    var sends: seq<Outcome>

    constructor (incoming: seq<byte>, recvs: seq<Outcome>, sends: seq<Outcome>)
      ensures this.incoming == incoming && outgoing == [] && this.recvs == recvs && this.sends == sends
    {
      this.incoming, outgoing, this.recvs, this.sends := incoming, [], recvs, sends;
    }

    /** `n < 0` is an error, `again` tells which kind; zero is end of stream. */
    method Recv(count: nat) returns (n: int, data: seq<byte>, again: bool)
      requires 0 < count <= MAX_INT
      modifies this`incoming, this`recvs
      ensures recvs == if old(recvs) == [] then [] else old(recvs)[1..]
      ensures n < 0 ==> data == [] && incoming == old(incoming) && old(recvs) != []
      ensures n < 0 ==> old(recvs)[0] == (if again then Again else Fault)
      ensures n >= 0 ==> n == |data| <= count && old(incoming) == data + incoming
      ensures n == 0 ==> old(incoming) == [] || (old(recvs) != [] && old(recvs)[0] == Nothing)
    {
      var o := if recvs == [] then Up(count) else recvs[0];
      recvs := if recvs == [] then [] else recvs[1..];
      match o
      case Again => return -1, [], true;
      case Fault => return -1, [], false;
      case Nothing => return 0, [], false;
      case Up(k) =>
        var m := Min(Min(count, Max(1, k)), |incoming|);
        data := incoming[..m];
        incoming := incoming[m..];
        return m, data, false;
    }

    method Send(data: seq<byte>) returns (n: int, again: bool)
      requires 0 < |data| <= MAX_INT
      modifies this`outgoing, this`sends
      ensures sends == if old(sends) == [] then [] else old(sends)[1..]
      ensures n < 0 ==> outgoing == old(outgoing) && old(sends) != []
      ensures n < 0 ==> old(sends)[0] == (if again then Again else Fault)
      ensures n >= 0 ==> n <= |data| && outgoing == old(outgoing) + data[..n]
      ensures n == 0 ==> old(sends) != [] && old(sends)[0] == Nothing
    {
      var o := if sends == [] then Up(|data|) else sends[0];
      sends := if sends == [] then [] else sends[1..];
      match o
      case Again => return -1, true;
      case Fault => return -1, false;
      case Nothing => return 0, false;
      case Up(k) =>
        var m := Min(|data|, Max(1, k));
        outgoing := outgoing + data[..m];
        return m, false;
    }
  }

  /** A read call that claims end of stream although octets remain would be a lie; scripts of reads have no `Nothing`. */
  predicate HonestReads(script: seq<Outcome>) {
    Nothing !in script
  }

  ghost predicate Within(script: seq<Outcome>, whole: seq<Outcome>) {
    forall o :: o in script ==> o in whole
  }

  /** Fills `buf[start..start+count]`; independent of how the octets trickle in. */
  method ReadExact(sock: Socket, buf: array<byte>, start: nat, count: nat) returns (n: int)
    requires start + count <= buf.Length && count <= MAX_INT && HonestReads(sock.recvs)
    modifies sock`incoming, sock`recvs, buf
    ensures HonestReads(sock.recvs) && (NoFault(old(sock.recvs)) ==> NoFault(sock.recvs))
    ensures forall i :: 0 <= i < buf.Length && !(start <= i < start + count) ==> buf[i] == old(buf[i])
    ensures n < 0 ==> !NoFault(old(sock.recvs))
    ensures n >= 0 ==> n == Min(count, |old(sock.incoming)|)
    ensures n >= 0 ==> old(sock.incoming) == buf[start..start + n] + sock.incoming
  {
    var total := 0;
    ghost var got: seq<byte> := [];
    while total < count
      invariant total == |got| <= count && old(sock.incoming) == got + sock.incoming
      invariant Within(sock.recvs, old(sock.recvs))
      invariant forall i :: 0 <= i < total ==> buf[start + i] == got[i]
      invariant forall i :: 0 <= i < buf.Length && !(start <= i < start + count) ==> buf[i] == old(buf[i])
      decreases count - total + |sock.recvs|
    {
      var k, data, again := sock.Recv(count - total);
      if k < 0 {
        if again {
          continue;
        }
        return -1;
      }
      if k == 0 {
        break;
      }
      CopyTo(buf, start + total, data);
      got := got + data;
      total := total + k;
    }
    assert buf[start..start + total] == got;
    return total;
  }

  method CopyTo(buf: array<byte>, at: nat, data: seq<byte>)
    requires at + |data| <= buf.Length
    modifies buf
    ensures forall i :: 0 <= i < buf.Length ==>
              buf[i] == if at <= i < at + |data| then data[i - at] else old(buf[i])
  {
    for i := 0 to |data|
      invariant forall j :: 0 <= j < buf.Length ==> buf[j] == if at <= j < at + i then data[j - at] else old(buf[j])
    {
      buf[at + i] := data[i];
    }
  }

  method WriteExact(sock: Socket, data: seq<byte>) returns (n: int)
    requires |data| <= MAX_INT
    modifies sock`outgoing, sock`sends
    ensures n <= |data|
    ensures n == |data| ==> sock.outgoing == old(sock.outgoing) + data
    ensures n != |data| ==> exists k :: 0 <= k < |data| && sock.outgoing == old(sock.outgoing) + data[..k]
    ensures NoFault(old(sock.sends)) && Nothing !in old(sock.sends) ==>
              n == |data| && NoFault(sock.sends) && Nothing !in sock.sends
  {
    var total := 0;
    while total < |data|
      invariant total <= |data| && sock.outgoing == old(sock.outgoing) + data[..total]
      invariant NoFault(old(sock.sends)) && Nothing !in old(sock.sends) ==>
                  NoFault(sock.sends) && Nothing !in sock.sends
      decreases |data| - total + |sock.sends|
    {
      ghost var script := sock.sends;
      var k, again := sock.Send(data[total..]);
      assert script != [] ==> script == [script[0]] + script[1..];
      if k <= 0 {
        if k == 0 {
          return total;
        }
        if again {
          continue;
        }
        return -1;
      }
      assert data[..total] + data[total..][..k] == data[..total + k];
      total := total + k;
    }
    return total;
  }

  /** The frame the stream begins with declares no more octets than one receive call can be asked for. */
  predicate ModestLength(s: seq<byte>) {
    && (|s| >= 4 && !SentinelHeader(s) ==> FromBigEndian32(s[..4]) <= MAX_INT)
    && (|s| >= 13 && SentinelHeader(s) ==> FromBigEndian64(s[5..13]) <= MAX_INT)
  }

  /** Reading the payload of a frame whose `header` octets have been consumed. */
  method ReadPayload(sock: Socket, length: nat) returns (ok: bool, payload: seq<byte>)
    requires length <= MAX_INT && HonestReads(sock.recvs)
    modifies sock`incoming, sock`recvs
    ensures ok ==> length <= |old(sock.incoming)| && payload == old(sock.incoming)[..length]
                   && sock.incoming == old(sock.incoming)[length..]
    ensures !ok && NoFault(old(sock.recvs)) ==> |old(sock.incoming)| < length
  {
    var buf := new byte[length];
    if length > 0 {
      var n := ReadExact(sock, buf, 0, length);
      if n != length {
        return false, [];
      }
    }
    return true, buf[..];
  }

  /** The socket form of the C++ reader agrees with the reader on octet sequences, however the octets arrive:
      it succeeds only with that frame, and short of a socket error it fails only where that reader rejects. */
  method ReadFrameFromSocket(sock: Socket) returns (ok: bool, frame: WireFrame)
    requires HonestReads(sock.recvs) && ModestLength(sock.incoming)
    modifies sock`incoming, sock`recvs
    ensures ok ==> var r := CppReadFrame(old(sock.incoming));
                   r.Accepted? && r.frame == frame && r.consumed <= |old(sock.incoming)|
                   && sock.incoming == old(sock.incoming)[r.consumed..]
    ensures !ok && NoFault(old(sock.recvs)) ==> CppReadFrame(old(sock.incoming)) == Rejected
  {
    ghost var s := sock.incoming;
    frame := WireFrame(0, []);
    var hdr := new byte[RAW_HEADER_SIZE];
    var n := ReadExact(sock, hdr, 0, FRAME_HEADER_SIZE);
    if n != FRAME_HEADER_SIZE {
      return false, frame;
    }
    assert hdr[..4] == s[..4] && hdr[4] == s[4] by { assert hdr[0..5] == s[..5]; }
    var first4 := FromBigEndian32(hdr[..4]);
    var messageType := hdr[4];
    if first4 == RAW_DATA_SENTINEL {
      n := ReadExact(sock, hdr, FRAME_HEADER_SIZE, 8);
      if n != 8 {
        return false, frame;
      }
      ghost var mid := s[5..];
      assert hdr[5..13] == mid[..8] == s[5..13];
      assert hdr[..] == s[..13];
      var header := DecodeFrameHeader(hdr[..]);
      assert s[..13][5..13] == s[5..13] && s[..13][..4] == s[..4];
      var length := header.value.rawDataLength;
      var payload;
      ok, payload := ReadPayload(sock, length);
      assert s[13..] == mid[8..];
      frame := WireFrame(MSG_RAW_DATA, payload);
      return ok, frame;
    }
    var payload;
    ok, payload := ReadPayload(sock, first4);
    frame := WireFrame(messageType, payload);
  }
}
