/** Both ends of the ROI connection: TcpRoiClient.cpp and tcp_roi_server.c, over sockets that move
    any number of bytes per call, get interrupted, close or fail at any point. */
module TcpEndpoints {
  import opened RoiProtocol
  import opened TcpParties

  /** What the kernel does with one send or recv call. */
  datatype Outcome = Move(n: nat) | Close | Interrupt | Failure

  datatype Moved = Some(n: nat) | End | Interrupted | Error

  /** How a call turns out. */
  predicate Turns(o: Outcome, r: Moved)
  {
    match o
    case Move(_) => r.Some?
    case Close => r == End
    case Interrupt => r == Interrupted
    case Failure => r == Error
  }

  /** One end of a byte stream: what was handed to the kernel so far, what will still arrive, and
      how the coming calls turn out. With the script used up every call fails. `log` (not in the
      program) lists the calls that moved bytes. */
  class Socket {
    var sent: seq<Byte>
    var incoming: seq<Byte>
    var script: seq<Outcome>
    ghost var log: seq<Call>

    constructor (incoming: seq<Byte>, script: seq<Outcome>)
      ensures sent == [] && this.incoming == incoming && this.script == script && log == []
    {
      this.sent, this.incoming, this.script, log := [], incoming, script, [];
    }

    /** send: takes some, at least one, of the bytes offered. */
    method Send(data: seq<Byte>) returns (r: Moved)
      requires data != []
      modifies this
      ensures incoming == old(incoming)
      ensures r.Some? ==> 0 < r.n <= |data| && sent == old(sent) + data[..r.n]
      ensures !r.Some? ==> sent == old(sent)
      ensures log == old(log) + if r.Some? then [Wrote(data[..r.n])] else []
      ensures if old(script) == [] then script == [] && r == Error
              else script == old(script)[1..] && Turns(old(script)[0], r)
    {
      if script == [] { return Error; }
      var o := script[0];
      script := script[1..];
      match o
      case Move(n) =>
        var taken := if n == 0 then 1 else if n > |data| then |data| else n;
        sent := sent + data[..taken];
        log := log + [Wrote(data[..taken])];
        r := Some(taken);
      case Close => r := End;
      case Interrupt => r := Interrupted;
      case Failure => r := Error;
    }

    /** recv: delivers some, at least one, of the bytes that arrive, or the end of the stream. */
    method Recv(size: nat) returns (r: Moved, data: seq<Byte>)
      requires size > 0
      modifies this
      ensures sent == old(sent)
      ensures r.Some? ==> 0 < r.n <= size && |data| == r.n && old(incoming) == data + incoming
      ensures !r.Some? ==> incoming == old(incoming)
      ensures log == old(log) + if r.Some? then [Read(data)] else []
      ensures old(script) == [] ==> script == [] && r == Error
      ensures old(script) != [] ==> script == old(script)[1..]
      ensures old(script) != [] ==>
        if old(script)[0].Move? && old(incoming) == [] then r == End else Turns(old(script)[0], r)
    {
      data := [];
      if script == [] { return Error, data; }
      var o := script[0];
      script := script[1..];
      match o
      case Move(n) =>
        var limit := if |incoming| < size then |incoming| else size;
        if limit == 0 { return End, data; }
        var taken := if n == 0 then 1 else if n > limit then limit else n;
        data := incoming[..taken];
        incoming := incoming[taken..];
        log := log + [Read(data)];
        r := Some(taken);
      case Close => r := End;
      case Interrupt => r := Interrupted;
      case Failure => r := Error;
    }
  }

  /** How many calls of the script can move bytes before one ends the stream or fails. */
  function Moves(script: seq<Outcome>): nat
  {
    if script == [] then 0
    else match script[0]
      case Move(_) => 1 + Moves(script[1..])
      case Interrupt => Moves(script[1..])
      case _ => 0
  }

  /** How the script ends. */
  function Ending(script: seq<Outcome>): Status
  {
    if script == [] then SystemError
    else match script[0]
      case Close => PeerClosed
      case Failure => SystemError
      case _ => Ending(script[1..])
  }

  /** The calls between two states of the script have gone well, at most `n` of them moving bytes. */
  ghost predicate WentOn(before: seq<Outcome>, after: seq<Outcome>, n: nat)
  {
    Moves(before) <= Moves(after) + n && Ending(after) == Ending(before)
  }

  lemma MoreWrites(calls: seq<Call>, data: seq<Byte>)
    requires AllWrites(calls) && data != []
    ensures AllWrites(calls + [Wrote(data)]) && Bytes(calls + [Wrote(data)]) == Bytes(calls) + data
  {
    BytesSnoc(calls, Wrote(data));
  }

  lemma MoreReads(calls: seq<Call>, data: seq<Byte>)
    requires AllReads(calls) && data != []
    ensures AllReads(calls + [Read(data)]) && Bytes(calls + [Read(data)]) == Bytes(calls) + data
  {
    BytesSnoc(calls, Read(data));
  }

  /** The transfer loops of both programs: they agree but for what they do on failure. */
  method TransferOut(socket: Socket, data: seq<Byte>) returns (s: Status, ghost calls: seq<Call>)
    modifies socket
    ensures s == Ok || s == PeerClosed || s == SystemError
    ensures socket.incoming == old(socket.incoming)
    ensures s == Ok ==> socket.sent == old(socket.sent) + data
    ensures s != Ok ==> exists k: nat :: k < |data| && socket.sent == old(socket.sent) + data[..k]
    ensures s == Ok ==> WentOn(old(socket.script), socket.script, |data|)
    ensures s != Ok ==> s == Ending(old(socket.script)) && Moves(old(socket.script)) < |data|
    ensures socket.log == old(socket.log) + calls && AllWrites(calls)
    ensures socket.sent == old(socket.sent) + Bytes(calls) && Bytes(calls) <= data
      && (s == Ok <==> Bytes(calls) == data)
  {
    hide Bytes, AllWrites;
    var sentSize := 0;
    calls := [];
    NoCalls();
    assert data[..0] == [];
    while sentSize < |data|
      invariant sentSize <= |data| && socket.sent == old(socket.sent) + data[..sentSize]
      invariant socket.incoming == old(socket.incoming)
      invariant WentOn(old(socket.script), socket.script, sentSize)
      invariant socket.log == old(socket.log) + calls && AllWrites(calls) && Bytes(calls) == data[..sentSize]
      decreases |data| - sentSize, |socket.script|
    {
      var r := socket.Send(data[sentSize..]);
      match r
      case End => return PeerClosed, calls;
      case Interrupted => continue;
      case Error => return SystemError, calls;
      case Some(n) =>
        ghost var piece := data[sentSize..][..n];
        assert data[..sentSize] + piece == data[..sentSize + n];
        MoreWrites(calls, piece);
        calls := calls + [Wrote(piece)];
        sentSize := sentSize + n;
    }
    assert data[..|data|] == data;
    return Ok, calls;
  }

  lemma NoCalls()
    ensures Bytes([]) == [] && AllWrites([]) && AllReads([])
  {
  }

  method TransferIn(socket: Socket, size: nat) returns (s: Status, data: seq<Byte>, ghost calls: seq<Call>)
    modifies socket
    ensures s == Ok || s == PeerClosed || s == SystemError
    ensures socket.sent == old(socket.sent) && old(socket.incoming) == data + socket.incoming
    ensures if s == Ok then |data| == size else |data| < size
    ensures s == Ok ==> WentOn(old(socket.script), socket.script, size)
    ensures s != Ok && |old(socket.incoming)| >= size ==>
      s == Ending(old(socket.script)) && Moves(old(socket.script)) < size
    ensures socket.log == old(socket.log) + calls && AllReads(calls) && Bytes(calls) == data
  {
    hide Bytes, AllReads;
    data, calls := [], [];
    NoCalls();
    while |data| < size
      invariant |data| <= size && old(socket.incoming) == data + socket.incoming
      invariant socket.sent == old(socket.sent) && WentOn(old(socket.script), socket.script, |data|)
      invariant socket.log == old(socket.log) + calls && AllReads(calls) && Bytes(calls) == data
      decreases size - |data|, |socket.script|
    {
      var r, more := socket.Recv(size - |data|);
      match r
      case End => return PeerClosed, data, calls;
      case Interrupted => continue;
      case Error => return SystemError, data, calls;
      case Some(n) =>
        MoreReads(calls, more);
        calls := calls + [Read(more)];
        data := data + more;
    }
    s := Ok;
  }

  /** A complete response the client accepts for its request. */
  predicate Answers(q: Request, b: seq<Byte>)
    requires |b| == RESPONSE_SIZE
  {
    AnswersHeader(q, DecodeHeader(b[..HEADER_SIZE])) && AcceptableResult(DecodeResult(b[HEADER_SIZE..]))
  }

  /** Byte by byte, which responses answer a request. */
  lemma AnswersIff(q: Request, b: seq<Byte>)
    requires |b| == RESPONSE_SIZE
    ensures Answers(q, b) <==>
      && Word(b, 0) == 0x524F_4931 && HalfWord(b, 4) == 2 && HalfWord(b, 6) == 2
      && Word(b, 8) == q.frameId && Word(b, 12) == q.roiId && Word(b, 16) == 12
      && Word(b, 20) <= 4 && Word(b, 28) <= 1_000_000 && (Word(b, 20) == 0 <==> Word(b, 24) != 0xFFFF_FFFF)
      && (Word(b, 20) != 0 ==> Word(b, 28) == 0)
  {
    HeaderFields(b[..HEADER_SIZE]);
    ResultFields(b[HEADER_SIZE..]);
    AcceptableIff(DecodeResult(b[HEADER_SIZE..]));
    hide DecodeHeader, DecodeResult, AcceptableResult;
    assert b[HEADER_SIZE..] == b[HEADER_SIZE..|b|];
    WordInside(b, HEADER_SIZE, |b|, 0);
    WordInside(b, HEADER_SIZE, |b|, 4);
    WordInside(b, HEADER_SIZE, |b|, 8);
  }

  /** And which headers open a request. */
  lemma RequestHeaderIff(b: seq<Byte>)
    requires |b| == HEADER_SIZE
    ensures ValidRequestHeader(DecodeHeader(b)) <==>
      Word(b, 0) == 0x524F_4931 && HalfWord(b, 4) == 2 && HalfWord(b, 6) == 1 && Word(b, 16) == 27676
  {
    HeaderFields(b);
  }

  datatype Classification = Classification(frameId: UInt32, roiId: UInt32, result: RoiResult)

  /** Exactly one response has been consumed, and the result is what it says. */
  predicate TookAnswer(q: Request, before: seq<Byte>, after: seq<Byte>, r: Classification)
  {
    && |before| >= RESPONSE_SIZE && after == before[RESPONSE_SIZE..]
    && Answers(q, before[..RESPONSE_SIZE])
    && r == Classification(q.frameId, q.roiId, DecodeResult(before[HEADER_SIZE..RESPONSE_SIZE]))
  }

  /** What arrives is no response to this request. */
  predicate NoAnswer(q: Request, incoming: seq<Byte>)
  {
    || (|incoming| >= HEADER_SIZE && !AnswersHeader(q, DecodeHeader(incoming[..HEADER_SIZE])))
    || (|incoming| >= RESPONSE_SIZE && !Answers(q, incoming[..RESPONSE_SIZE]))
  }

  /** Exactly one request has been consumed. */
  predicate TookRequest(before: seq<Byte>, after: seq<Byte>, h: Header, q: Request)
  {
    && |before| >= REQUEST_SIZE && after == before[REQUEST_SIZE..]
    && h == DecodeHeader(before[..HEADER_SIZE]) && ValidRequestHeader(h) && q == ParseRequest(before[..REQUEST_SIZE])
  }

  class TcpRoiClient {
    const socket: Socket
    var connected: bool

    constructor (socket: Socket)
      ensures connected && this.socket == socket
    {
      this.socket, connected := socket, true;
    }

    method Disconnect()
      modifies this
      ensures !connected
    {
      connected := false;
    }

    method SendAll(data: seq<Byte>) returns (s: Status, ghost calls: seq<Call>)
      modifies this, socket
      ensures socket.incoming == old(socket.incoming)
      ensures s == NotConnected <==> !old(connected)
      ensures connected == (s == Ok)
      ensures s == Ok ==> socket.sent == old(socket.sent) + data
      ensures s != Ok ==> exists k: nat :: k <= |data| && socket.sent == old(socket.sent) + data[..k]
      ensures s == Ok ==> WentOn(old(socket.script), socket.script, |data|)
      ensures s != Ok && s != NotConnected ==> s == Ending(old(socket.script)) && Moves(old(socket.script)) < |data|
      ensures s != ProtocolError && s != InvalidArgument
      ensures socket.log == old(socket.log) + calls && AllWrites(calls) && Bytes(calls) <= data
        && (s == Ok ==> Bytes(calls) == data)
      ensures s != Ok && data != [] ==> Bytes(calls) != data
    {
      hide Bytes, AllWrites;
      NoCalls();
      if !connected {
        assert old(socket.sent) + data[..0] == socket.sent;
        return NotConnected, [];
      }
      s, calls := TransferOut(socket, data);
      if s != Ok { Disconnect(); }
    }

    method ReceiveAll(size: nat) returns (s: Status, data: seq<Byte>, ghost calls: seq<Call>)
      modifies this, socket
      ensures socket.sent == old(socket.sent) && old(socket.incoming) == data + socket.incoming
      ensures s == NotConnected <==> !old(connected)
      ensures connected == (s == Ok)
      ensures s == Ok ==> |data| == size
      ensures s != Ok ==> |data| < size || data == []
      ensures s == Ok ==> WentOn(old(socket.script), socket.script, size)
      ensures s != Ok && s != NotConnected && |old(socket.incoming)| >= size ==>
        s == Ending(old(socket.script)) && Moves(old(socket.script)) < size
      ensures s != ProtocolError && s != InvalidArgument
      ensures socket.log == old(socket.log) + calls && AllReads(calls) && Bytes(calls) == data
    {
      hide Bytes, AllReads;
      NoCalls();
      if !connected { return NotConnected, [], []; }
      s, data, calls := TransferIn(socket, size);
      if s != Ok { Disconnect(); }
    }

    /** The three writes of a request, in order. */
    method SendRequest(q: Request) returns (s: Status, ghost calls: seq<Call>)
      requires WellFormed(q)
      modifies this, socket
      ensures socket.incoming == old(socket.incoming)
      ensures s == NotConnected <==> !old(connected)
      ensures connected == (s == Ok)
      ensures s == Ok ==> socket.sent == old(socket.sent) + RequestBytes(q)
      ensures s != Ok ==> exists k: nat ::
        k <= |RequestBytes(q)| && socket.sent == old(socket.sent) + RequestBytes(q)[..k]
      ensures s == Ok ==> WentOn(old(socket.script), socket.script, REQUEST_SIZE)
      ensures s != Ok && s != NotConnected ==>
        s == Ending(old(socket.script)) && Moves(old(socket.script)) < REQUEST_SIZE
      ensures s != ProtocolError && s != InvalidArgument
      ensures socket.log == old(socket.log) + calls && AllWrites(calls) && Bytes(calls) <= RequestBytes(q)
      ensures s == Ok <==> Bytes(calls) == RequestBytes(q)
    {
      hide EncodeHeader, EncodeBbox, RequestHeader, Bytes, AllWrites;
      ghost var before := socket.sent;
      var header, bbox := EncodeHeader(RequestHeader(q)), EncodeBbox(q.bbox);
      s, calls := SendAll(header);
      if s != Ok {
        PrefixOfConcat(before, socket.sent, [], header, bbox + q.image, RequestBytes(q));
        return;
      }
      ghost var more;
      s, more := SendAll(bbox);
      Appended(calls, more);
      calls := calls + more;
      if s != Ok {
        PrefixOfConcat(before, socket.sent, header, bbox, q.image, RequestBytes(q));
        return;
      }
      s, more := SendAll(q.image);
      Appended(calls, more);
      calls := calls + more;
      if s != Ok {
        PrefixOfConcat(before, socket.sent, header + bbox, q.image, [], RequestBytes(q));
        return;
      }
      assert before + header + bbox + q.image == before + (header + bbox + q.image);
    }

    /** The response: header, check, result, check. */
    method ReceiveResponse(q: Request, ghost c: Client)
      returns (s: Status, result: Classification, ghost calls: seq<Call>, ghost d: Client)
      requires connected && c.status == Ok && c.phase == Receiving(q, [])
      modifies this, socket
      ensures socket.sent == old(socket.sent) && connected == (s == Ok)
      ensures s == Ok ==> TookAnswer(q, old(socket.incoming), socket.incoming, result)
      ensures s == ProtocolError ==> NoAnswer(q, old(socket.incoming))
      ensures s != Ok && s != ProtocolError && |old(socket.incoming)| >= RESPONSE_SIZE ==>
        s == Ending(old(socket.script)) && Moves(old(socket.script)) < RESPONSE_SIZE
      ensures s != NotConnected && s != InvalidArgument
      ensures socket.log == old(socket.log) + calls && ClientPath(c, calls, d) && LeftAt(c.received, q, s, result, d)
    {
      hide DecodeHeader, DecodeResult, ValidResponseHeader, Bytes, AllReads, ClientPath, ClientGot;
      ghost var all := socket.incoming;
      result := Classification(0, 0, RoiResult(0, 0, 0));
      var headerBytes, resultBytes;
      s, headerBytes, calls := ReceiveAll(HEADER_SIZE);
      d := HeaderPath(c, q, calls);
      if s != Ok { return; }
      assert headerBytes == all[..HEADER_SIZE];
      var h := DecodeHeader(headerBytes);
      if !ValidResponseHeader(h) || h.frameId != q.frameId || h.roiId != q.roiId {
        Disconnect();
        s := ProtocolError;
        return;
      }
      ghost var more, half := [], d;
      s, resultBytes, more := ReceiveAll(RESULT_SIZE);
      d := ResultPath(half, q, headerBytes, more);
      ClientPathConcat(c, calls, half, more, d);
      calls := calls + more;
      if s != Ok { return; }
      assert all == (headerBytes + resultBytes) + socket.incoming;
      assert all[..RESPONSE_SIZE] == headerBytes + resultBytes && all[HEADER_SIZE..RESPONSE_SIZE] == resultBytes;
      assert all[..RESPONSE_SIZE][..HEADER_SIZE] == headerBytes && all[..RESPONSE_SIZE][HEADER_SIZE..] == resultBytes;
      var r := DecodeResult(resultBytes);
      if r.status > STATUS_POSTPROCESS_ERROR || r.confidencePpm > CONFIDENCE_PPM_MAX {
        Disconnect();
        s := ProtocolError;
        return;
      }
      if r.status == STATUS_OK && r.classId == INVALID_CLASS_ID {
        Disconnect();
        s := ProtocolError;
        return;
      }
      if r.status != STATUS_OK && (r.classId != INVALID_CLASS_ID || r.confidencePpm != 0) {
        Disconnect();
        s := ProtocolError;
        return;
      }
      result := Classification(h.frameId, h.roiId, r);
    }

    /** classify: a picture of the wrong size is refused before anything is sent; afterwards the
        connection survives exactly the successful calls, and those leave both directions at a
        message boundary. The calls on the socket are a path of the protocol's client. */
    method Classify(q: Request, ghost received: seq<Answer>)
      returns (s: Status, result: Classification, ghost calls: seq<Call>, ghost d: Client)
      modifies this, socket
      ensures s == NotConnected <==> !old(connected)
      ensures s == InvalidArgument <==> old(connected) && !WellFormed(q)
      ensures s == NotConnected || s == InvalidArgument ==>
        connected == old(connected) && socket.sent == old(socket.sent) && socket.incoming == old(socket.incoming)
      ensures old(connected) && WellFormed(q) ==> connected == (s == Ok)
      ensures s == Ok ==> socket.sent == old(socket.sent) + RequestBytes(q)
      ensures s == Ok ==> TookAnswer(q, old(socket.incoming), socket.incoming, result)
      ensures s == ProtocolError ==> NoAnswer(q, old(socket.incoming))
      ensures |old(socket.incoming)| >= RESPONSE_SIZE && old(connected) && WellFormed(q) ==>
        s != Ok && s != ProtocolError ==>
        s == Ending(old(socket.script)) && Moves(old(socket.script)) < REQUEST_SIZE + RESPONSE_SIZE
      ensures exists k: nat :: k <= |RequestBytes(q)| && socket.sent == old(socket.sent) + RequestBytes(q)[..k]
      ensures socket.log == old(socket.log) + calls
      ensures if s == NotConnected || s == InvalidArgument then calls == []
              else ClientPath(Called(q, received), calls, d) && LeftAt(received, q, s, result, d)
    {
      hide RequestBytes, TookAnswer, NoAnswer, Bytes, AllWrites, ClientPath;
      result := Classification(0, 0, RoiResult(0, 0, 0));
      ghost var c := Called(q, received);
      calls, d := [], c;
      assert socket.sent == socket.sent + RequestBytes(q)[..0];
      if !connected { return NotConnected, result, calls, d; }
      if |q.image| != IMAGE_SIZE { return InvalidArgument, result, calls, d; }
      s, calls := SendRequest(q);
      RequestRoundTrip(q);
      ClientWrites(c, q, calls);
      d := SendingFrom(c, q, |Bytes(calls)|);
      if s != Ok { return; }
      assert RequestBytes(q)[..|RequestBytes(q)|] == RequestBytes(q);
      ghost var more, half := [], d;
      s, result, more, d := ReceiveResponse(q, half);
      ClientPathConcat(c, calls, half, more, d);
      calls := calls + more;
    }
  }

  /** The client as a call of `classify` starts. */
  function Called(q: Request, received: seq<Answer>): Client { Client(Sending(q, 0), Ok, received) }

  /** Where the calls leave the client: done with this answer, refusing what it got, or still under
      way, in which case the failure closes the connection. */
  ghost predicate LeftAt(received: seq<Answer>, q: Request, s: Status, result: Classification, d: Client)
  {
    match s
    case Ok => d == Client(Idle, Ok, received + [Answer(q, result.result)])
    case ProtocolError => d.status == ProtocolError && d.received == received
    case _ => d.status == Ok && !d.phase.Idle? && d.received == received
  }

  lemma Appended(a: seq<Call>, b: seq<Call>)
    requires AllWrites(a) && AllWrites(b)
    ensures AllWrites(a + b) && Bytes(a + b) == Bytes(a) + Bytes(b)
  {
    BytesConcat(a, b);
  }

  /** Reading the header, in full or not. */
  lemma HeaderPath(c: Client, q: Request, calls: seq<Call>) returns (d: Client)
    requires c.status == Ok && c.phase == Receiving(q, []) && AllReads(calls) && |Bytes(calls)| <= HEADER_SIZE
    ensures ClientPath(c, calls, d) && d.received == c.received && d.phase == Receiving(q, Bytes(calls))
    ensures d.status ==
      if |Bytes(calls)| == HEADER_SIZE && !AnswersHeader(q, DecodeHeader(Bytes(calls))) then ProtocolError else Ok
  {
    hide DecodeHeader, AnswersHeader, AllReads, ClientPath;
    NoCalls();
    assert [] + Bytes(calls) == Bytes(calls);
    if |Bytes(calls)| < HEADER_SIZE {
      ClientReadsOn(c, q, [], calls);
      d := c.(phase := Receiving(q, Bytes(calls)));
    } else {
      ClientReads(c, q, [], calls);
      d := ClientGot(c, q, Bytes(calls));
    }
  }

  /** Reading the result behind an accepted header, in full or not. */
  lemma ResultPath(c: Client, q: Request, header: seq<Byte>, calls: seq<Call>) returns (d: Client)
    requires c.status == Ok && |header| == HEADER_SIZE && c.phase == Receiving(q, header)
    requires AllReads(calls) && |Bytes(calls)| <= RESULT_SIZE
    ensures ClientPath(c, calls, d)
    ensures if |Bytes(calls)| < RESULT_SIZE then d.status == Ok && !d.phase.Idle? && d.received == c.received
            else if AcceptableResult(DecodeResult(Bytes(calls)))
              then d == Client(Idle, Ok, c.received + [Answer(q, DecodeResult(Bytes(calls)))])
            else d.status == ProtocolError && d.received == c.received
  {
    hide DecodeResult, AcceptableResult, DecodeHeader, AnswersHeader, AllReads, ClientPath;
    NoCalls();
    var got := header + Bytes(calls);
    if |Bytes(calls)| < RESULT_SIZE {
      ClientReadsOn(c, q, header, calls);
      d := c.(phase := Receiving(q, got));
    } else {
      ClientReads(c, q, header, calls);
      assert got[HEADER_SIZE..] == Bytes(calls);
      d := ClientGot(c, q, got);
    }
  }

  lemma PrefixOfConcat(before: seq<Byte>, sent: seq<Byte>, a: seq<Byte>, b: seq<Byte>, c: seq<Byte>, whole: seq<Byte>)
    requires whole == a + b + c
    requires exists k: nat :: k <= |b| && sent == before + a + b[..k]
    ensures exists k: nat :: k <= |whole| && sent == before + whole[..k]
  {
    var k: nat :| k <= |b| && sent == before + a + b[..k];
    assert whole[..|a| + k] == a + b[..k];
    assert sent == before + whole[..|a| + k];
  }

  // ---------------------------------------------------------------- the server

  /** receive_request: Ok exactly when a whole request with a valid header arrives; then exactly
      that message has been consumed. The calls are a path of the protocol's server. */
  method ReceiveRequest(socket: Socket)
    returns (s: Status, header: Header, q: Request, ghost calls: seq<Call>, ghost d: Server)
    modifies socket
    ensures socket.sent == old(socket.sent)
    ensures s == Ok ==> TookRequest(old(socket.incoming), socket.incoming, header, q)
    ensures s == ProtocolError ==>
      |old(socket.incoming)| >= HEADER_SIZE && !ValidRequestHeader(DecodeHeader(old(socket.incoming)[..HEADER_SIZE]))
    ensures s != Ok && s != ProtocolError && |old(socket.incoming)| >= REQUEST_SIZE ==>
      s == Ending(old(socket.script)) && Moves(old(socket.script)) < REQUEST_SIZE
    ensures s != NotConnected && s != InvalidArgument
    ensures socket.log == old(socket.log) + calls && ServerPath(Server(Waiting([]), Ok), calls, d)
    ensures match s
      case Ok => d == Server(Working(q), Ok)
      case ProtocolError => d.status == ProtocolError
      case _ => d.status == Ok && d.phase.Waiting?
  {
    hide DecodeHeader, DecodeBbox, ValidRequestHeader, Bytes, AllReads, ServerPath, ParseRequest;
    ghost var all := socket.incoming;
    ghost var p := Server(Waiting([]), Ok);
    header := Header(0, 0, 0, 0, 0, 0);
    q := Request(0, 0, Bbox(0, 0, 0, 0, 0, 0, 0), []);
    var headerBytes, bboxBytes, image;
    s, headerBytes, calls := TransferIn(socket, HEADER_SIZE);
    d := RequestHeaderPath(p, calls);
    if s != Ok { return; }
    assert headerBytes == all[..HEADER_SIZE];
    header := DecodeHeader(headerBytes);
    if !ValidRequestHeader(header) {
      s := ProtocolError;
      return;
    }
    ghost var more, half := [], d;
    s, bboxBytes, more := TransferIn(socket, BBOX_SIZE);
    d := RequestBodyPath(half, headerBytes, more);
    ServerPathConcat(p, calls, half, more, d);
    calls := calls + more;
    if s != Ok { return; }
    half := d;
    s, image, more := TransferIn(socket, IMAGE_SIZE);
    d := RequestBodyPath(half, headerBytes + bboxBytes, more);
    ServerPathConcat(p, calls, half, more, d);
    calls := calls + more;
    if s != Ok { return; }
    q := Request(header.frameId, header.roiId, DecodeBbox(bboxBytes), image);
    ghost var b := headerBytes + bboxBytes + image;
    assert all == b + socket.incoming;
    assert all[..REQUEST_SIZE] == b && all[REQUEST_SIZE..] == socket.incoming;
    assert all[..HEADER_SIZE] == headerBytes;
    PartsOfRequest(headerBytes, bboxBytes, image);
  }

  lemma PartsOfRequest(header: seq<Byte>, bbox: seq<Byte>, image: seq<Byte>)
    requires |header| == HEADER_SIZE && |bbox| == BBOX_SIZE && |image| == IMAGE_SIZE
    ensures var h := DecodeHeader(header);
      ParseRequest(header + bbox + image) == Request(h.frameId, h.roiId, DecodeBbox(bbox), image)
  {
    hide DecodeHeader, DecodeBbox;
    var b := header + bbox + image;
    assert b[..HEADER_SIZE] == header && b[HEADER_SIZE..HEADER_SIZE + BBOX_SIZE] == bbox
      && b[HEADER_SIZE + BBOX_SIZE..] == image;
  }

  lemma RequestHeaderPath(p: Server, calls: seq<Call>) returns (d: Server)
    requires p == Server(Waiting([]), Ok) && AllReads(calls) && |Bytes(calls)| <= HEADER_SIZE
    ensures ServerPath(p, calls, d) && d.phase == Waiting(Bytes(calls))
    ensures d.status ==
      if |Bytes(calls)| == HEADER_SIZE && !ValidRequestHeader(DecodeHeader(Bytes(calls))) then ProtocolError else Ok
  {
    hide DecodeHeader, ValidRequestHeader, AllReads, ServerPath;
    NoCalls();
    assert [] + Bytes(calls) == Bytes(calls);
    if |Bytes(calls)| < HEADER_SIZE {
      ServerReadsOn(p, [], calls);
      d := p.(phase := Waiting(Bytes(calls)));
    } else {
      ServerReads(p, [], calls);
      d := ServerGot(p, Bytes(calls));
    }
  }

  lemma RequestBodyPath(p: Server, got: seq<Byte>, calls: seq<Call>) returns (d: Server)
    requires p == Server(Waiting(got), Ok) && HEADER_SIZE <= |got| && |got + Bytes(calls)| <= REQUEST_SIZE
    requires AllReads(calls) && |got| < REQUEST_SIZE
    ensures ServerPath(p, calls, d) && d.status == Ok
    ensures d.phase ==
      if |got + Bytes(calls)| < REQUEST_SIZE then Waiting(got + Bytes(calls))
      else Working(ParseRequest(got + Bytes(calls)))
  {
    hide DecodeHeader, ValidRequestHeader, AllReads, ServerPath, ParseRequest;
    NoCalls();
    if |got + Bytes(calls)| < REQUEST_SIZE {
      ServerReadsOn(p, got, calls);
      d := p.(phase := Waiting(got + Bytes(calls)));
    } else {
      ServerReads(p, got, calls);
      d := ServerGot(p, got + Bytes(calls));
    }
  }

  /** send_result, for a request whose identifiers the header carries. The calls are a path of the
      protocol's server. */
  method SendResult(socket: Socket, request: Header, r: RoiResult, ghost q: Request)
    returns (s: Status, ghost calls: seq<Call>, ghost d: Server)
    requires q.frameId == request.frameId && q.roiId == request.roiId
    modifies socket
    ensures socket.incoming == old(socket.incoming)
    ensures s == InvalidArgument <==> r.confidencePpm > CONFIDENCE_PPM_MAX
    ensures s == InvalidArgument ==> socket.sent == old(socket.sent)
    ensures s == Ok ==> socket.sent == old(socket.sent) + ResponseBytes(request, r)
    ensures s != Ok && s != InvalidArgument ==>
      exists k: nat :: k < RESPONSE_SIZE && socket.sent == old(socket.sent) + ResponseBytes(request, r)[..k]
    ensures s != Ok && s != InvalidArgument ==>
      s == Ending(old(socket.script)) && Moves(old(socket.script)) < RESPONSE_SIZE
    ensures socket.log == old(socket.log) + calls && ServerPath(Server(Replying(q, r, 0), Ok), calls, d)
    ensures d.status == Ok && if s == Ok then d.phase == Waiting([]) else d.phase.Replying?
  {
    hide EncodeHeader, EncodeResult, Bytes, AllWrites, ServerPath;
    ghost var p := Server(Replying(q, r, 0), Ok);
    calls, d := [], p;
    if r.confidencePpm > CONFIDENCE_PPM_MAX {
      StayingPut(p);
      return InvalidArgument, calls, d;
    }
    assert ResponseBytes(request, r) == Response(q, r);
    s, calls := TransferOut(socket, ResponseBytes(request, r));
    ServerWrites(p, q, r, calls);
    d := ReplyingFrom(p, q, r, |Bytes(calls)|);
  }

  lemma StayingPut(p: Server)
    ensures ServerPath(p, [], p)
  {
  }
}
