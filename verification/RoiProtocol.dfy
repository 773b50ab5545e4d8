/** The ROI wire format of roi_protocol.h: big-endian integers (Appendix B of RFC 791), floats as
    their IEEE 754 binary32 bit patterns, fixed field offsets. */
module RoiProtocol {
  type Byte = v: int | 0 <= v < 0x100
  type UInt16 = v: int | 0 <= v < 0x1_0000
  type UInt32 = v: int | 0 <= v < 0x1_0000_0000

  const ROI_MAGIC: UInt32 := 0x524F_4931
  const ROI_VERSION: UInt16 := 2
  const MESSAGE_REQUEST: UInt16 := 1
  const MESSAGE_RESPONSE: UInt16 := 2
  const IMAGE_SIZE := 96 * 96 * 3
  const BBOX_SIZE := 28
  const REQUEST_PAYLOAD_SIZE: UInt32 := BBOX_SIZE + IMAGE_SIZE
  const HEADER_SIZE := 20
  const RESULT_SIZE := 12
  const STATUS_OK: UInt32 := 0
  const STATUS_INVALID_PAYLOAD: UInt32 := 2
  const STATUS_ACCELERATOR_ERROR: UInt32 := 3
  const STATUS_POSTPROCESS_ERROR: UInt32 := 4
  const INVALID_CLASS_ID: UInt32 := 0xFFFF_FFFF
  const CONFIDENCE_PPM_MAX := 1_000_000

  datatype Header = Header(magic: UInt32, version: UInt16, messageType: UInt16,
                           frameId: UInt32, roiId: UInt32, payloadSize: UInt32)

  datatype RoiResult = RoiResult(status: UInt32, classId: UInt32, confidencePpm: UInt32)

  /** The five float fields are bit patterns. */
  datatype Bbox = Bbox(x: UInt32, y: UInt32, width: UInt32, height: UInt32, objectness: UInt32,
                       frameWidth: UInt32, frameHeight: UInt32)

  datatype Request = Request(frameId: UInt32, roiId: UInt32, bbox: Bbox, image: seq<Byte>)

  function WriteU16(v: UInt16): (b: seq<Byte>)
    ensures |b| == 2
  {
    [v / 0x100, v % 0x100]
  }

  function WriteU32(v: UInt32): (b: seq<Byte>)
    ensures |b| == 4
  {
    [v / 0x100_0000, v / 0x1_0000 % 0x100, v / 0x100 % 0x100, v % 0x100]
  }

  function ReadU16(b: seq<Byte>, at: nat): UInt16
    requires at + 2 <= |b|
  {
    var hi: int, lo: int := b[at], b[at + 1];
    0x100 * hi + lo
  }

  function ReadU32(b: seq<Byte>, at: nat): UInt32
    requires at + 4 <= |b|
  {
    var b3: int, b2: int, b1: int, b0: int := b[at], b[at + 1], b[at + 2], b[at + 3];
    0x100_0000 * b3 + 0x1_0000 * b2 + 0x100 * b1 + b0
  }

  /** An integer written anywhere in a buffer is read back from there. */
  lemma U32RoundTrip(pre: seq<Byte>, v: UInt32, post: seq<Byte>)
    ensures ReadU32(pre + WriteU32(v) + post, |pre|) == v
  {
    var b := pre + WriteU32(v) + post;
    var b3, b2, b1, b0 := v / 0x100_0000, v / 0x1_0000 % 0x100, v / 0x100 % 0x100, v % 0x100;
    Digits(v, b3, b2, b1, b0);
    assert WriteU32(v) == [b3, b2, b1, b0];
    hide WriteU32;
    assert b[|pre|] == b3 && b[|pre| + 1] == b2 && b[|pre| + 2] == b1 && b[|pre| + 3] == b0;
  }

  lemma Digits(v: UInt32, b3: int, b2: int, b1: int, b0: int)
    requires b3 == v / 0x100_0000 && b2 == v / 0x1_0000 % 0x100 && b1 == v / 0x100 % 0x100 && b0 == v % 0x100
    ensures 0x100_0000 * b3 + 0x1_0000 * b2 + 0x100 * b1 + b0 == v
    ensures 0 <= b3 < 0x100
  {
    var q1, q2 := v / 0x100, v / 0x1_0000;
    HighPart(v, q1, q2, b3);
    assert v == 0x100 * q1 + b0;
    assert q1 == 0x100 * q2 + b1 && q2 == 0x100 * b3 + b2;
  }

  lemma HighPart(v: UInt32, q1: int, q2: int, q3: int)
    requires q1 == v / 0x100 && q2 == v / 0x1_0000 && q3 == v / 0x100_0000
    ensures q2 == q1 / 0x100 && q3 == q2 / 0x100
  {
  }

  lemma U16RoundTrip(pre: seq<Byte>, v: UInt16, post: seq<Byte>)
    ensures ReadU16(pre + WriteU16(v) + post, |pre|) == v
  {
    var b := pre + WriteU16(v) + post;
    assert b[|pre|] == v / 0x100 && b[|pre| + 1] == v % 0x100;
  }

  function EncodeHeader(h: Header): (b: seq<Byte>)
    ensures |b| == HEADER_SIZE
  {
    WriteU32(h.magic) + WriteU16(h.version) + WriteU16(h.messageType)
    + WriteU32(h.frameId) + WriteU32(h.roiId) + WriteU32(h.payloadSize)
  }

  function DecodeHeader(b: seq<Byte>): Header
    requires |b| == HEADER_SIZE
  {
    Header(ReadU32(b, 0), ReadU16(b, 4), ReadU16(b, 6), ReadU32(b, 8), ReadU32(b, 12), ReadU32(b, 16))
  }

  lemma HeaderRoundTrip(h: Header)
    ensures DecodeHeader(EncodeHeader(h)) == h
  {
    var b := EncodeHeader(h);
    var m, v, t := WriteU32(h.magic), WriteU16(h.version), WriteU16(h.messageType);
    var f, r, p := WriteU32(h.frameId), WriteU32(h.roiId), WriteU32(h.payloadSize);
    U32RoundTrip([], h.magic, v + t + f + r + p);
    assert b == [] + m + (v + t + f + r + p);
    U16RoundTrip(m, h.version, t + f + r + p);
    assert b == m + v + (t + f + r + p);
    U16RoundTrip(m + v, h.messageType, f + r + p);
    assert b == m + v + t + (f + r + p);
    U32RoundTrip(m + v + t, h.frameId, r + p);
    assert b == m + v + t + f + (r + p);
    U32RoundTrip(m + v + t + f, h.roiId, p);
    U32RoundTrip(m + v + t + f + r, h.payloadSize, []);
    assert b == m + v + t + f + r + p + [];
  }

  function EncodeResult(r: RoiResult): (b: seq<Byte>)
    ensures |b| == RESULT_SIZE
  {
    WriteU32(r.status) + WriteU32(r.classId) + WriteU32(r.confidencePpm)
  }

  function DecodeResult(b: seq<Byte>): RoiResult
    requires |b| == RESULT_SIZE
  {
    RoiResult(ReadU32(b, 0), ReadU32(b, 4), ReadU32(b, 8))
  }

  lemma ResultRoundTrip(r: RoiResult)
    ensures DecodeResult(EncodeResult(r)) == r
  {
    var s, c, p := WriteU32(r.status), WriteU32(r.classId), WriteU32(r.confidencePpm);
    U32RoundTrip([], r.status, c + p);
    assert EncodeResult(r) == [] + s + (c + p);
    U32RoundTrip(s, r.classId, p);
    U32RoundTrip(s + c, r.confidencePpm, []);
    assert EncodeResult(r) == s + c + p + [];
  }

  function EncodeWords(w: seq<UInt32>): (b: seq<Byte>)
    ensures |b| == 4 * |w|
  {
    if w == [] then [] else WriteU32(w[0]) + EncodeWords(w[1..])
  }

  lemma {:induction false} WordsRoundTrip(pre: seq<Byte>, w: seq<UInt32>, k: nat)
    requires k < |w|
    ensures ReadU32(pre + EncodeWords(w), |pre| + 4 * k) == w[k]
    decreases k
  {
    var rest := EncodeWords(w[1..]);
    if k == 0 {
      U32RoundTrip(pre, w[0], rest);
      assert pre + EncodeWords(w) == pre + WriteU32(w[0]) + rest;
    } else {
      WordsRoundTrip(pre + WriteU32(w[0]), w[1..], k - 1);
      assert pre + EncodeWords(w) == (pre + WriteU32(w[0])) + rest;
    }
  }

  function BboxWords(x: Bbox): seq<UInt32>
  {
    [x.x, x.y, x.width, x.height, x.objectness, x.frameWidth, x.frameHeight]
  }

  function EncodeBbox(x: Bbox): (b: seq<Byte>)
    ensures |b| == BBOX_SIZE
  {
    EncodeWords(BboxWords(x))
  }

  function DecodeBbox(b: seq<Byte>): Bbox
    requires |b| == BBOX_SIZE
  {
    Bbox(ReadU32(b, 0), ReadU32(b, 4), ReadU32(b, 8), ReadU32(b, 12), ReadU32(b, 16), ReadU32(b, 20), ReadU32(b, 24))
  }

  lemma BboxRoundTrip(x: Bbox)
    ensures DecodeBbox(EncodeBbox(x)) == x
  {
    hide EncodeWords, ReadU32;
    var w := BboxWords(x);
    assert EncodeBbox(x) == [] + EncodeWords(w);
    WordsRoundTrip([], w, 0);
    WordsRoundTrip([], w, 1);
    WordsRoundTrip([], w, 2);
    WordsRoundTrip([], w, 3);
    WordsRoundTrip([], w, 4);
    WordsRoundTrip([], w, 5);
    WordsRoundTrip([], w, 6);
  }

  predicate ValidRequestHeader(h: Header)
  {
    && h.magic == ROI_MAGIC && h.version == ROI_VERSION
    && h.messageType == MESSAGE_REQUEST && h.payloadSize == REQUEST_PAYLOAD_SIZE
  }

  predicate ValidResponseHeader(h: Header)
  {
    && h.magic == ROI_MAGIC && h.version == ROI_VERSION
    && h.messageType == MESSAGE_RESPONSE && h.payloadSize == RESULT_SIZE
  }

  /** The client's three checks on a result payload (TcpRoiClient::classify). */
  predicate AcceptableResult(r: RoiResult)
  {
    && r.status <= STATUS_POSTPROCESS_ERROR && r.confidencePpm <= CONFIDENCE_PPM_MAX
    && (r.status == STATUS_OK ==> r.classId != INVALID_CLASS_ID)
    && (r.status != STATUS_OK ==> r.classId == INVALID_CLASS_ID && r.confidencePpm == 0)
  }

  function RequestHeader(q: Request): Header
  {
    Header(ROI_MAGIC, ROI_VERSION, MESSAGE_REQUEST, q.frameId, q.roiId, REQUEST_PAYLOAD_SIZE)
  }

  /** `send_result`: the response header echoes the identifiers of the request. */
  function ResponseHeader(request: Header): Header
  {
    Header(ROI_MAGIC, ROI_VERSION, MESSAGE_RESPONSE, request.frameId, request.roiId, RESULT_SIZE)
  }

  function RequestBytes(q: Request): seq<Byte>
  {
    EncodeHeader(RequestHeader(q)) + EncodeBbox(q.bbox) + q.image
  }

  function ResponseBytes(request: Header, r: RoiResult): (b: seq<Byte>)
    ensures |b| == HEADER_SIZE + RESULT_SIZE
  {
    EncodeHeader(ResponseHeader(request)) + EncodeResult(r)
  }

  const REQUEST_SIZE := HEADER_SIZE + BBOX_SIZE + IMAGE_SIZE
  const RESPONSE_SIZE := HEADER_SIZE + RESULT_SIZE

  predicate WellFormed(q: Request) { |q.image| == IMAGE_SIZE }

  /** What `receive_request` reconstructs from a complete message, or nothing when the header
      is not a request header. */
  function ParseRequest(b: seq<Byte>): (q: Request)
    requires |b| == REQUEST_SIZE
  {
    var h := DecodeHeader(b[..HEADER_SIZE]);
    Request(h.frameId, h.roiId, DecodeBbox(b[HEADER_SIZE..HEADER_SIZE + BBOX_SIZE]), b[HEADER_SIZE + BBOX_SIZE..])
  }

  /** The server reconstructs exactly the request the client sent. */
  lemma RequestRoundTrip(q: Request)
    requires WellFormed(q)
    ensures |RequestBytes(q)| == REQUEST_SIZE
    ensures DecodeHeader(RequestBytes(q)[..HEADER_SIZE]) == RequestHeader(q) && ValidRequestHeader(RequestHeader(q))
    ensures ParseRequest(RequestBytes(q)) == q
  {
    hide EncodeHeader, DecodeHeader, EncodeBbox, DecodeBbox;
    var b := RequestBytes(q);
    assert b[..HEADER_SIZE] == EncodeHeader(RequestHeader(q));
    assert b[HEADER_SIZE..HEADER_SIZE + BBOX_SIZE] == EncodeBbox(q.bbox);
    assert b[HEADER_SIZE + BBOX_SIZE..] == q.image;
    HeaderRoundTrip(RequestHeader(q));
    BboxRoundTrip(q.bbox);
  }

  /** The client decodes exactly the header and result the server encoded. */
  lemma ResponseRoundTrip(request: Header, r: RoiResult)
    ensures DecodeHeader(ResponseBytes(request, r)[..HEADER_SIZE]) == ResponseHeader(request)
    ensures DecodeResult(ResponseBytes(request, r)[HEADER_SIZE..]) == r
    ensures ValidResponseHeader(ResponseHeader(request))
  {
    hide EncodeHeader, DecodeHeader, EncodeResult, DecodeResult;
    var b := ResponseBytes(request, r);
    assert b[..HEADER_SIZE] == EncodeHeader(ResponseHeader(request));
    assert b[HEADER_SIZE..] == EncodeResult(r);
    HeaderRoundTrip(ResponseHeader(request));
    ResultRoundTrip(r);
  }

  // ---------------------------------------------------------------- bytes on the wire

  /** The big-endian number in the four bytes from `at` on. */
  function Word(b: seq<Byte>, at: nat): int
    requires at + 4 <= |b|
  {
    var b3: int, b2: int, b1: int, b0: int := b[at], b[at + 1], b[at + 2], b[at + 3];
    ((b3 * 256 + b2) * 256 + b1) * 256 + b0
  }

  function HalfWord(b: seq<Byte>, at: nat): int
    requires at + 2 <= |b|
  {
    var b1: int, b0: int := b[at], b[at + 1];
    b1 * 256 + b0
  }

  lemma ReadIsWord(b: seq<Byte>, at: nat)
    requires at + 4 <= |b|
    ensures ReadU32(b, at) == Word(b, at)
  {
  }

  lemma ReadIsHalfWord(b: seq<Byte>, at: nat)
    requires at + 2 <= |b|
    ensures ReadU16(b, at) == HalfWord(b, at)
  {
  }

  /** The six fields of a header, byte by byte. */
  lemma HeaderFields(b: seq<Byte>)
    requires |b| == HEADER_SIZE
    ensures var h := DecodeHeader(b);
      && h.magic == Word(b, 0) && h.version == HalfWord(b, 4) && h.messageType == HalfWord(b, 6)
      && h.frameId == Word(b, 8) && h.roiId == Word(b, 12) && h.payloadSize == Word(b, 16)
  {
    ReadIsWord(b, 0);
    ReadIsHalfWord(b, 4);
    ReadIsHalfWord(b, 6);
    ReadIsWord(b, 8);
    ReadIsWord(b, 12);
    ReadIsWord(b, 16);
    hide ReadU32, ReadU16, Word, HalfWord;
  }

  lemma ResultFields(b: seq<Byte>)
    requires |b| == RESULT_SIZE
    ensures var r := DecodeResult(b);
      r.status == Word(b, 0) && r.classId == Word(b, 4) && r.confidencePpm == Word(b, 8)
  {
    ReadIsWord(b, 0);
    ReadIsWord(b, 4);
    ReadIsWord(b, 8);
    hide ReadU32, Word;
  }

  lemma BboxFields(b: seq<Byte>)
    requires |b| == BBOX_SIZE
    ensures var x := DecodeBbox(b);
      && x.x == Word(b, 0) && x.y == Word(b, 4) && x.width == Word(b, 8) && x.height == Word(b, 12)
      && x.objectness == Word(b, 16) && x.frameWidth == Word(b, 20) && x.frameHeight == Word(b, 24)
  {
    ReadIsWord(b, 0);
    ReadIsWord(b, 4);
    ReadIsWord(b, 8);
    ReadIsWord(b, 12);
    ReadIsWord(b, 16);
    ReadIsWord(b, 20);
    ReadIsWord(b, 24);
    hide ReadU32, Word;
  }

  lemma WordInside(b: seq<Byte>, lo: nat, hi: nat, at: nat)
    requires lo <= hi <= |b| && at + 4 <= hi - lo
    ensures Word(b[lo..hi], at) == Word(b, lo + at)
  {
  }

  /** A request on the wire: marks, version 2, type 1, identifiers, payload size; the box; the picture. */
  lemma RequestLayout(q: Request)
    requires |q.image| == 96 * 96 * 3
    ensures var b := RequestBytes(q);
      && |b| == 48 + 27648 && b[0] == 0x52 && b[1] == 0x4F && b[2] == 0x49 && b[3] == 0x31
      && HalfWord(b, 4) == 2 && HalfWord(b, 6) == 1
      && Word(b, 8) == q.frameId && Word(b, 12) == q.roiId && Word(b, 16) == 27676
      && Word(b, 20) == q.bbox.x && Word(b, 24) == q.bbox.y
      && Word(b, 28) == q.bbox.width && Word(b, 32) == q.bbox.height
      && Word(b, 36) == q.bbox.objectness && Word(b, 40) == q.bbox.frameWidth && Word(b, 44) == q.bbox.frameHeight
      && b[48..] == q.image
  {
    var b := RequestBytes(q);
    RequestRoundTrip(q);
    HeaderFields(b[..HEADER_SIZE]);
    assert b[HEADER_SIZE..HEADER_SIZE + BBOX_SIZE] == EncodeBbox(q.bbox);
    BboxRoundTrip(q.bbox);
    BboxFields(b[HEADER_SIZE..HEADER_SIZE + BBOX_SIZE]);
    Magic(b);
    hide EncodeHeader, EncodeBbox, DecodeHeader, DecodeBbox;
    forall i: nat | i < 7 { WordInside(b, HEADER_SIZE, HEADER_SIZE + BBOX_SIZE, 4 * i); }
  }

  /** The digits of the mark are what they are because no other four bytes give the number. */
  lemma Magic(b: seq<Byte>)
    requires |b| >= 4 && Word(b, 0) == ROI_MAGIC
    ensures b[0] == 0x52 && b[1] == 0x4F && b[2] == 0x49 && b[3] == 0x31
  {
  }

  /** A response on the wire: the same header with type 2 and the request's identifiers; the result. */
  lemma ResponseLayout(request: Header, r: RoiResult)
    ensures var b := ResponseBytes(request, r);
      && |b| == 32 && b[0] == 0x52 && b[1] == 0x4F && b[2] == 0x49 && b[3] == 0x31
      && HalfWord(b, 4) == 2 && HalfWord(b, 6) == 2
      && Word(b, 8) == request.frameId && Word(b, 12) == request.roiId && Word(b, 16) == 12
      && Word(b, 20) == r.status && Word(b, 24) == r.classId && Word(b, 28) == r.confidencePpm
  {
    var b := ResponseBytes(request, r);
    ResponseRoundTrip(request, r);
    HeaderFields(b[..HEADER_SIZE]);
    ResultFields(b[HEADER_SIZE..]);
    Magic(b);
    hide EncodeHeader, EncodeResult, DecodeHeader, DecodeResult;
    assert b[HEADER_SIZE..] == b[HEADER_SIZE..|b|];
    WordInside(b, HEADER_SIZE, |b|, 0);
    WordInside(b, HEADER_SIZE, |b|, 4);
    WordInside(b, HEADER_SIZE, |b|, 8);
  }

  /** Which results the client takes: a known status, a confidence of at most a million, a class exactly
      with status 0, and otherwise neither class nor confidence. */
  lemma AcceptableIff(r: RoiResult)
    ensures AcceptableResult(r) <==>
      && r.status <= 4 && r.confidencePpm <= 1_000_000 && (r.status == 0 <==> r.classId != 0xFFFF_FFFF)
      && (r.status != 0 ==> r.confidencePpm == 0)
  {
  }
}
