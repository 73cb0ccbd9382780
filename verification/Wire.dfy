/** The frame codec, written once in C++ (server/include/wire_protocol.h) and once in Rust (client/src/wire.rs). */
module Wire {
  import opened Bytes

  const RAW_DATA_SENTINEL: nat := 0xFFFFFFFF
  const MSG_RAW_DATA: byte := 0xFE
  const FRAME_HEADER_SIZE: nat := 5
  const RAW_HEADER_SIZE: nat := 13

  datatype WireFrame = WireFrame(messageType: byte, payload: seq<byte>)

  datatype Peer = Cpp | Rust

  /** What a peer can put on the wire: a typed message, or file bytes behind a raw-data header. */
  datatype Outgoing = Standard(messageType: byte, payload: seq<byte>) | Raw(data: seq<byte>)

  function View(o: Outgoing): WireFrame {
    match o
    case Standard(t, p) => WireFrame(t, p)
    case Raw(d) => WireFrame(MSG_RAW_DATA, d)
  }

  predicate Encodable(o: Outgoing) {
    match o
    case Standard(_, p) => |p| < RAW_DATA_SENTINEL
    case Raw(d) => |d| < TWO64
  }

  // ---- Encoding -------------------------------------------------------------

  /** `memcpy(buffer + at, data, |data|)`. */
  function CopyInto(buffer: seq<byte>, at: nat, data: seq<byte>): (r: seq<byte>)
    requires at + |data| <= |buffer|
    ensures |r| == |buffer|
  {
    buffer[..at] + data + buffer[at + |data|..]
  }

  /** The C++ encoder sizes a zeroed buffer and copies the fields into place. */
  function CppEncodeFrame(f: WireFrame): seq<byte> {
    var buffer := Zeros(FRAME_HEADER_SIZE + |f.payload|);
    var buffer := CopyInto(buffer, 0, BigEndian32(|f.payload| % TWO32));
    var buffer := buffer[4 := f.messageType];
    if f.payload == [] then buffer else CopyInto(buffer, FRAME_HEADER_SIZE, f.payload)
  }

  function CppEncodeRawDataHeader(rawLength: nat): seq<byte> {
    var buffer := Zeros(RAW_HEADER_SIZE);
    var buffer := CopyInto(buffer, 0, BigEndian32(RAW_DATA_SENTINEL));
    var buffer := buffer[4 := MSG_RAW_DATA];
    CopyInto(buffer, 5, BigEndian64(rawLength % TWO64))
  }

  /** The Rust encoder appends field after field. */
  function RustEncodeFrame(messageType: byte, payload: seq<byte>): seq<byte> {
    BigEndian32(|payload| % TWO32) + [messageType] + payload
  }

  function RustEncodeRawDataHeader(rawLength: nat): seq<byte> {
    BigEndian32(RAW_DATA_SENTINEL) + [MSG_RAW_DATA] + BigEndian64(rawLength % TWO64)
  }

  function Encode(p: Peer, o: Outgoing): seq<byte> {
    match (p, o)
    case (Cpp, Standard(t, d)) => CppEncodeFrame(WireFrame(t, d))
    case (Cpp, Raw(d)) => CppEncodeRawDataHeader(|d|) + d
    case (Rust, Standard(t, d)) => RustEncodeFrame(t, d)
    case (Rust, Raw(d)) => RustEncodeRawDataHeader(|d|) + d
  }

  function EncodeAll(p: Peer, os: seq<Outgoing>): seq<byte> {
    if os == [] then [] else Encode(p, os[0]) + EncodeAll(p, os[1..])
  }

  /** Copying into place and appending lay out the same octets. */
  lemma EncodersAgree(o: Outgoing)
    ensures Encode(Cpp, o) == Encode(Rust, o)
  {
    match o
    case Standard(t, d) =>
      var be := BigEndian32(|d| % TWO32);
      var b0 := CopyInto(Zeros(5 + |d|), 0, be);
      assert b0[4 := t][..5] == be + [t];
    case Raw(d) =>
      var b0 := CopyInto(Zeros(13), 0, BigEndian32(RAW_DATA_SENTINEL));
      assert b0[4 := MSG_RAW_DATA][..5] == BigEndian32(RAW_DATA_SENTINEL) + [MSG_RAW_DATA];
  }

  /** Octet by octet: a four-octet length, most significant first, the type, the payload; the raw-data header carries the
      sentinel, its own type and an eight-octet length. */
  lemma KnownFrames(d: byte)
    ensures Encode(Cpp, Standard(21, [d])) == [0, 0, 0, 1, 21, d]
    ensures CppEncodeRawDataHeader(0x0102_0304_0506_0708)
         == [0xFF, 0xFF, 0xFF, 0xFF, 0xFE, 1, 2, 3, 4, 5, 6, 7, 8]
    ensures RustEncodeFrame(10, Zeros(0x1_0203))[..6] == [0, 1, 2, 3, 10, 0]
  {
    EncodersAgree(Standard(21, [d]));
    assert BigEndian32(1) == [0, 0, 0, 1] && BigEndian32(0x1_0203) == [0, 1, 2, 3];
    RawHeaderLayout(0x0102_0304_0506_0708);
    assert BigEndian64(0x0102_0304_0506_0708) == [1, 2, 3, 4, 5, 6, 7, 8];
  }

  lemma RawHeaderLayout(n: nat)
    requires n < TWO64
    ensures CppEncodeRawDataHeader(n) == [0xFF, 0xFF, 0xFF, 0xFF, 0xFE] + BigEndian64(n)
  {
    assert BigEndian32(RAW_DATA_SENTINEL) == [0xFF, 0xFF, 0xFF, 0xFF];
    assert n % TWO64 == n;
    hide BigEndian32, BigEndian64;
    var b0 := CopyInto(Zeros(13), 0, BigEndian32(RAW_DATA_SENTINEL));
    assert b0[4 := MSG_RAW_DATA][..5] == BigEndian32(RAW_DATA_SENTINEL) + [MSG_RAW_DATA];
  }

  // ---- Decoding -------------------------------------------------------------

  datatype FrameHeader = FrameHeader(payloadLength: nat, messageType: byte, isRawData: bool, rawDataLength: nat)

  /** `decode_frame_header`; None stands for the thrown exception. */
  function DecodeFrameHeader(data: seq<byte>): Option<FrameHeader> {
    if |data| < FRAME_HEADER_SIZE then None else
      var first4 := FromBigEndian32(data[..4]);
      if first4 != RAW_DATA_SENTINEL then Some(FrameHeader(first4, data[4], false, 0))
      else if |data| < RAW_HEADER_SIZE then None
      else Some(FrameHeader(0, data[4], true, FromBigEndian64(data[5..13])))
  }

  /** Outcome of reading one frame from a stream that ends after the given octets. */
  datatype Reading = Rejected | Accepted(frame: WireFrame, consumed: nat)

  /** C++: five octets, then eight more behind the sentinel; the type of a sentinel frame is forced. */
  function CppReadFrame(s: seq<byte>): Reading {
    if |s| < FRAME_HEADER_SIZE then Rejected else
      var first4 := FromBigEndian32(s[..4]);
      if first4 == RAW_DATA_SENTINEL then
        if |s| < RAW_HEADER_SIZE then Rejected else
          match DecodeFrameHeader(s[..RAW_HEADER_SIZE])
          case None => Rejected
          case Some(h) =>
            if |s| < RAW_HEADER_SIZE + h.rawDataLength then Rejected
            else Accepted(WireFrame(MSG_RAW_DATA, s[RAW_HEADER_SIZE..RAW_HEADER_SIZE + h.rawDataLength]),
                          RAW_HEADER_SIZE + h.rawDataLength)
      else if |s| < FRAME_HEADER_SIZE + first4 then Rejected
      else Accepted(WireFrame(s[4], s[FRAME_HEADER_SIZE..FRAME_HEADER_SIZE + first4]), FRAME_HEADER_SIZE + first4)
  }

  /** Rust: four octets, then nine behind the sentinel or one otherwise; the type octet is kept as received. */
  function RustReadFrame(s: seq<byte>): Reading {
    if |s| < 4 then Rejected else
      var payloadLen := FromBigEndian32(s[..4]);
      var rest := s[4..];
      if payloadLen == RAW_DATA_SENTINEL then
        if |rest| < 9 then Rejected else
          var rawLen := FromBigEndian64(rest[1..9]);
          var body := rest[9..];
          if |body| < rawLen then Rejected
          else Accepted(WireFrame(rest[0], body[..rawLen]), 4 + 9 + rawLen)
      else if |rest| < 1 then Rejected
      else
        var body := rest[1..];
        if |body| < payloadLen then Rejected
        else Accepted(WireFrame(rest[0], body[..payloadLen]), 4 + 1 + payloadLen)
  }

  function ReadFrame(p: Peer, s: seq<byte>): (r: Reading)
    ensures r.Accepted? ==> FRAME_HEADER_SIZE <= r.consumed <= |s|
  {
    match p case Cpp => CppReadFrame(s) case Rust => RustReadFrame(s)
  }

  /** Reads frames until the stream is used up; None when a frame is cut short. */
  function DecodeAll(p: Peer, s: seq<byte>): Option<seq<WireFrame>>
    decreases |s|
  {
    if s == [] then Some([]) else
      match ReadFrame(p, s)
      case Rejected => None
      case Accepted(f, n) =>
        match DecodeAll(p, s[n..])
        case None => None
        case Some(fs) => Some([f] + fs)
  }

  predicate SentinelHeader(s: seq<byte>) {
    |s| >= 4 && FromBigEndian32(s[..4]) == RAW_DATA_SENTINEL
  }

  /** On every octet stream the two readers accept together, with the same payload and the same length;
      they differ exactly in the type they report for a sentinel frame whose type octet is not 0xFE. */
  lemma DecodersAgree(s: seq<byte>)
    ensures var c, r := CppReadFrame(s), RustReadFrame(s);
            && c.Accepted? == r.Accepted?
            && (c.Accepted? ==>
                 && c.consumed == r.consumed
                 && c.frame.payload == r.frame.payload
                 && (c.frame.messageType == r.frame.messageType
                     <==> (SentinelHeader(s) ==> s[4] == MSG_RAW_DATA))
                 && r.frame.messageType == s[4]
                 && (SentinelHeader(s) ==> c.frame.messageType == 0xFE))
  {
    if |s| >= 13 {
      assert s[..13][..4] == s[..4];
      assert s[..13][5..13] == s[5..13] == s[4..][1..9];
    }
  }

  // ---- Round trips ----------------------------------------------------------

  lemma Layout(len: seq<byte>, t: byte, body: seq<byte>)
    requires |len| == 4
    ensures var s := len + [t] + body;
            |s| == 5 + |body| && s[..4] == len && s[4] == t && s[5..] == body && s[4..][1..] == body
  {
  }

  lemma RawLayout(len: seq<byte>, t: byte, raw: seq<byte>, d: seq<byte>, rest: seq<byte>)
    requires |len| == 4 && |raw| == 8
    ensures var s := len + [t] + raw + d + rest;
            |s| == 13 + |d| + |rest| && s[..4] == len && s[4] == t && s[5..13] == raw && s[13..] == d + rest
  {
  }

  lemma HeaderOfStandard(t: byte, p: seq<byte>, rest: seq<byte>)
    ensures var s := RustEncodeFrame(t, p) + rest;
            && |s| == 5 + |p| + |rest|
            && FromBigEndian32(s[..4]) == |p| % TWO32 && s[4] == t && s[5..] == s[4..][1..] == p + rest
  {
    BigEndian32RoundTrip(|p| % TWO32);
    var len := BigEndian32(|p| % TWO32);
    Layout(len, t, p + rest);
    assert RustEncodeFrame(t, p) + rest == len + [t] + (p + rest);
  }

  lemma HeaderOfRaw(d: seq<byte>, rest: seq<byte>)
    requires |d| < TWO64
    ensures var s := RustEncodeRawDataHeader(|d|) + d + rest;
            && |s| == 13 + |d| + |rest|
            && FromBigEndian32(s[..4]) == RAW_DATA_SENTINEL && s[4] == MSG_RAW_DATA
            && FromBigEndian64(s[5..13]) == |d| && s[13..] == d + rest
  {
    hide BigEndian32, BigEndian64, FromBigEndian32, FromBigEndian64;
    BigEndian32RoundTrip(RAW_DATA_SENTINEL);
    BigEndian64RoundTrip(|d|);
    RawLayout(BigEndian32(RAW_DATA_SENTINEL), MSG_RAW_DATA, BigEndian64(|d|), d, rest);
  }

  lemma RustReadsStandard(t: byte, p: seq<byte>, rest: seq<byte>)
    requires |p| < RAW_DATA_SENTINEL
    ensures RustReadFrame(RustEncodeFrame(t, p) + rest) == Accepted(WireFrame(t, p), 5 + |p|)
  {
    HeaderOfStandard(t, p, rest);
    assert (p + rest)[..|p|] == p;
  }

  lemma RustReadsRaw(d: seq<byte>, rest: seq<byte>)
    requires |d| < TWO64
    ensures RustReadFrame(RustEncodeRawDataHeader(|d|) + d + rest) == Accepted(WireFrame(MSG_RAW_DATA, d), 13 + |d|)
  {
    HeaderOfRaw(d, rest);
    var s := RustEncodeRawDataHeader(|d|) + d + rest;
    assert s[4..][1..9] == s[5..13] && s[4..][9..] == s[13..];
    assert (d + rest)[..|d|] == d;
  }

  /** One frame, either encoder, either reader, anything after it. */
  lemma FrameRoundTrip(enc: Peer, dec: Peer, o: Outgoing, rest: seq<byte>)
    requires Encodable(o)
    ensures ReadFrame(dec, Encode(enc, o) + rest) == Accepted(View(o), |Encode(enc, o)|)
  {
    EncodersAgree(o);
    var s := Encode(enc, o) + rest;
    DecodersAgree(s);
    match o
    case Standard(t, p) =>
      RustReadsStandard(t, p, rest);
      HeaderOfStandard(t, p, rest);
    case Raw(d) =>
      RustReadsRaw(d, rest);
      HeaderOfRaw(d, rest);
  }

  /** A standard frame survives the wire if and only if its payload is shorter than the sentinel value:
      the 32-bit length field otherwise wraps, or reads as the raw-data escape. */
  lemma StandardFrameSurvivesIff(enc: Peer, dec: Peer, t: byte, p: seq<byte>, rest: seq<byte>)
    ensures ReadFrame(dec, Encode(enc, Standard(t, p)) + rest) == Accepted(WireFrame(t, p), FRAME_HEADER_SIZE + |p|)
            <==> |p| < RAW_DATA_SENTINEL
  {
    EncodersAgree(Standard(t, p));
    if |p| < RAW_DATA_SENTINEL {
      FrameRoundTrip(enc, dec, Standard(t, p), rest);
    } else {
      HeaderOfStandard(t, p, rest);
      var s := Encode(enc, Standard(t, p)) + rest;
      DecodersAgree(s);
    }
  }

  /** The header decoder on its own: it fails exactly on input too short for the header it announces, and reads back what
      either encoder wrote. */
  lemma HeaderDecoded(data: seq<byte>, o: Outgoing, rest: seq<byte>)
    requires Encodable(o)
    ensures DecodeFrameHeader(data).None? <==> |data| < 5 || (SentinelHeader(data) && |data| < 13)
    ensures DecodeFrameHeader(Encode(Cpp, o) + rest) ==
              match o
              case Standard(t, p) => Some(FrameHeader(|p|, t, false, 0))
              case Raw(d) => Some(FrameHeader(0, 0xFE, true, |d|))
  {
    hide BigEndian32, BigEndian64, FromBigEndian32, FromBigEndian64, CppEncodeFrame, CppEncodeRawDataHeader, RustEncodeFrame,
         RustEncodeRawDataHeader;
    EncodersAgree(o);
    match o
    case Standard(t, p) => HeaderOfStandard(t, p, rest);
    case Raw(d) => HeaderOfRaw(d, rest);
  }

  function Views(os: seq<Outgoing>): (v: seq<WireFrame>)
    ensures |v| == |os| && forall i :: 0 <= i < |os| ==> v[i] == View(os[i])
  {
    if os == [] then [] else [View(os[0])] + Views(os[1..])
  }

  /** Any mix of standard and raw frames, encoded by either peer and concatenated, is decoded by either
      peer into the same sequence with nothing left over. */
  lemma {:induction false} StreamRoundTrip(enc: Peer, dec: Peer, os: seq<Outgoing>)
    requires forall o :: o in os ==> Encodable(o)
    ensures DecodeAll(dec, EncodeAll(enc, os)) == Some(Views(os))
  {
    if os != [] {
      StreamRoundTrip(enc, dec, os[1..]);
      var rest := EncodeAll(enc, os[1..]);
      FrameRoundTrip(enc, dec, os[0], rest);
      assert (Encode(enc, os[0]) + rest)[|Encode(enc, os[0])|..] == rest;
    }
  }

  lemma CutStandard(t: byte, p: seq<byte>, k: nat)
    requires |p| < RAW_DATA_SENTINEL && k < |RustEncodeFrame(t, p)|
    ensures RustReadFrame(RustEncodeFrame(t, p)[..k]) == Rejected
  {
    hide RustEncodeFrame, BigEndian32, FromBigEndian32, FromBigEndian64;
    var s := RustEncodeFrame(t, p);
    assert s + [] == s;
    HeaderOfStandard(t, p, []);
    if k >= 4 { assert s[..k][..4] == s[..4]; }
  }

  lemma CutRaw(d: seq<byte>, k: nat)
    requires |d| < TWO64 && k < |RustEncodeRawDataHeader(|d|) + d|
    ensures RustReadFrame((RustEncodeRawDataHeader(|d|) + d)[..k]) == Rejected
  {
    hide RustEncodeRawDataHeader, FromBigEndian32, FromBigEndian64;
    var s := RustEncodeRawDataHeader(|d|) + d;
    assert s + [] == s;
    HeaderOfRaw(d, []);
    if k >= 4 { assert s[..k][..4] == s[..4]; }
    if k >= 13 { assert s[..k][4..][1..9] == s[5..13]; }
  }

  /** Cutting a frame anywhere makes both readers reject it. */
  lemma StrictPrefixRejected(enc: Peer, dec: Peer, o: Outgoing, k: nat)
    requires Encodable(o) && k < |Encode(enc, o)|
    ensures ReadFrame(dec, Encode(enc, o)[..k]) == Rejected
  {
    hide RustEncodeRawDataHeader, RustEncodeFrame, RustReadFrame, CppReadFrame, CppEncodeFrame, CppEncodeRawDataHeader;
    EncodersAgree(o);
    DecodersAgree(Encode(enc, o)[..k]);
    match o
    case Standard(t, p) => CutStandard(t, p, k);
    case Raw(d) => CutRaw(d, k);
  }
}
