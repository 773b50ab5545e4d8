/** The two parties of the ROI protocol, each as the sequence of calls it makes on its socket. */
module TcpParties {
  import opened RoiProtocol

  datatype Status = Ok | InvalidArgument | NotConnected | SystemError | PeerClosed | ProtocolError

  /** A call that moved bytes; interrupted, ended and failing calls move none. */
  datatype Call = Wrote(bytes: seq<Byte>) | Read(bytes: seq<Byte>)

  /** An answered request. */
  datatype Answer = Answer(q: Request, r: RoiResult)

  datatype ClientPhase = Idle | Sending(q: Request, k: nat) | Receiving(q: Request, got: seq<Byte>)

  datatype ServerPhase = Waiting(got: seq<Byte>) | Working(q: Request) | Replying(q: Request, r: RoiResult, k: nat)

  /** A side that is no longer Ok has closed the connection. `received` lists what `classify`
      returned with Ok. */
  datatype Client = Client(phase: ClientPhase, status: Status, received: seq<Answer>)

  datatype Server = Server(phase: ServerPhase, status: Status)

  /** The client's check of a response header against its request. */
  predicate AnswersHeader(q: Request, h: Header)
  {
    ValidResponseHeader(h) && h.frameId == q.frameId && h.roiId == q.roiId
  }

  function Response(q: Request, r: RoiResult): (b: seq<Byte>)
    ensures |b| == RESPONSE_SIZE
  {
    ResponseBytes(RequestHeader(q), r)
  }

  /** How far a side reads on before it checks: the header first, then the rest. */
  function Wanted(got: nat, whole: nat): int { (if got < HEADER_SIZE then HEADER_SIZE else whole) - got }

  predicate Follows(sent: seq<Byte>, k: nat, bytes: seq<Byte>)
  {
    0 < |bytes| && k + |bytes| <= |sent| && bytes == sent[k..k + |bytes|]
  }

  predicate ClientMay(c: Client, call: Call)
  {
    c.status == Ok &&
    match call
    case Wrote(bytes) => c.phase.Sending? && Follows(RequestBytes(c.phase.q), c.phase.k, bytes)
    case Read(bytes) => c.phase.Receiving? && 0 < |bytes| <= Wanted(|c.phase.got|, RESPONSE_SIZE)
  }

  function ClientGot(c: Client, q: Request, got: seq<Byte>): Client
  {
    if |got| == HEADER_SIZE && !AnswersHeader(q, DecodeHeader(got)) then
      c.(phase := Receiving(q, got), status := ProtocolError)
    else if |got| == RESPONSE_SIZE then
      if AcceptableResult(DecodeResult(got[HEADER_SIZE..]))
      then c.(phase := Idle, received := c.received + [Answer(q, DecodeResult(got[HEADER_SIZE..]))])
      else c.(phase := Receiving(q, got), status := ProtocolError)
    else c.(phase := Receiving(q, got))
  }

  function ClientAfter(c: Client, call: Call): Client
    requires ClientMay(c, call)
  {
    match call
    case Wrote(bytes) =>
      var q, k := c.phase.q, c.phase.k + |bytes|;
      c.(phase := if k == |RequestBytes(q)| then Receiving(q, []) else Sending(q, k))
    case Read(bytes) => ClientGot(c, c.phase.q, c.phase.got + bytes)
  }

  predicate ServerMay(p: Server, call: Call)
  {
    p.status == Ok &&
    match call
    case Read(bytes) => p.phase.Waiting? && 0 < |bytes| <= Wanted(|p.phase.got|, REQUEST_SIZE)
    case Wrote(bytes) => p.phase.Replying? && Follows(Response(p.phase.q, p.phase.r), p.phase.k, bytes)
  }

  function ServerGot(p: Server, got: seq<Byte>): Server
  {
    if |got| == HEADER_SIZE && !ValidRequestHeader(DecodeHeader(got)) then
      p.(phase := Waiting(got), status := ProtocolError)
    else if |got| == REQUEST_SIZE then p.(phase := Working(ParseRequest(got)))
    else p.(phase := Waiting(got))
  }

  function ServerAfter(p: Server, call: Call): Server
    requires ServerMay(p, call)
  {
    match call
    case Read(bytes) => ServerGot(p, p.phase.got + bytes)
    case Wrote(bytes) =>
      var k := p.phase.k + |bytes|;
      p.(phase := if k == RESPONSE_SIZE then Waiting([]) else Replying(p.phase.q, p.phase.r, k))
  }

  // ---------------------------------------------------------------- sequences of calls

  function ClientEnd(c: Client, calls: seq<Call>): Client
  {
    if calls == [] then c
    else
      var m, last := ClientEnd(c, calls[..|calls| - 1]), calls[|calls| - 1];
      if ClientMay(m, last) then ClientAfter(m, last) else m
  }

  function ServerEnd(p: Server, calls: seq<Call>): Server
  {
    if calls == [] then p
    else
      var m, last := ServerEnd(p, calls[..|calls| - 1]), calls[|calls| - 1];
      if ServerMay(m, last) then ServerAfter(m, last) else m
  }

  predicate ClientRuns(c: Client, calls: seq<Call>)
  {
    calls == [] || (ClientRuns(c, calls[..|calls| - 1])
                    && ClientMay(ClientEnd(c, calls[..|calls| - 1]), calls[|calls| - 1]))
  }

  predicate ServerRuns(p: Server, calls: seq<Call>)
  {
    calls == [] || (ServerRuns(p, calls[..|calls| - 1])
                    && ServerMay(ServerEnd(p, calls[..|calls| - 1]), calls[|calls| - 1]))
  }

  /** The calls take the client from `c` to `d`, each one allowed where it is made. */
  predicate ClientPath(c: Client, calls: seq<Call>, d: Client) { ClientRuns(c, calls) && ClientEnd(c, calls) == d }

  predicate ServerPath(p: Server, calls: seq<Call>, d: Server) { ServerRuns(p, calls) && ServerEnd(p, calls) == d }

  lemma ClientStep(c: Client, calls: seq<Call>, m: Client, call: Call)
    requires ClientPath(c, calls, m) && ClientMay(m, call)
    ensures ClientPath(c, calls + [call], ClientAfter(m, call))
  {
    hide ClientMay, ClientAfter;
    assert (calls + [call])[..|calls|] == calls;
  }

  lemma ServerStep(p: Server, calls: seq<Call>, m: Server, call: Call)
    requires ServerPath(p, calls, m) && ServerMay(m, call)
    ensures ServerPath(p, calls + [call], ServerAfter(m, call))
  {
    hide ServerMay, ServerAfter;
    assert (calls + [call])[..|calls|] == calls;
  }

  /** Everything the calls moved. */
  function Bytes(calls: seq<Call>): seq<Byte>
  {
    if calls == [] then [] else Bytes(calls[..|calls| - 1]) + calls[|calls| - 1].bytes
  }

  ghost predicate AllWrites(calls: seq<Call>)
  {
    forall i :: 0 <= i < |calls| ==> calls[i].Wrote? && calls[i].bytes != []
  }

  ghost predicate AllReads(calls: seq<Call>) { forall i :: 0 <= i < |calls| ==> calls[i].Read? && calls[i].bytes != [] }

  lemma Joins<T>(a: seq<T>, b: seq<T>, c: seq<T>)
    ensures (a + b) + c == a + (b + c)
  {
  }

  lemma Splits<T>(s: seq<T>)
    requires s != []
    ensures s[..|s| - 1] + [s[|s| - 1]] == s
  {
  }

  lemma BytesSnoc(calls: seq<Call>, call: Call)
    ensures Bytes(calls + [call]) == Bytes(calls) + call.bytes
  {
    assert (calls + [call])[..|calls|] == calls;
  }

  lemma {:induction false} BytesConcat(a: seq<Call>, b: seq<Call>)
    ensures Bytes(a + b) == Bytes(a) + Bytes(b)
  {
    if b == [] {
      assert a + b == a;
    } else {
      var init, last := b[..|b| - 1], b[|b| - 1];
      BytesConcat(a, init);
      Splits(b);
      BytesSnoc(init, last);
      BytesSnoc(a + init, last);
      hide Bytes;
      Joins(a, init, [last]);
      Joins(Bytes(a), Bytes(init), last.bytes);
    }
  }

  lemma ClientLast(c: Client, calls: seq<Call>)
    requires calls != [] && ClientRuns(c, calls)
    ensures var m, last := ClientEnd(c, calls[..|calls| - 1]), calls[|calls| - 1];
      ClientPath(c, calls[..|calls| - 1], m) && ClientMay(m, last) && ClientEnd(c, calls) == ClientAfter(m, last)
  {
    hide ClientMay, ClientAfter;
  }

  lemma {:induction false} ClientPathConcat(c: Client, a: seq<Call>, m: Client, b: seq<Call>, d: Client)
    requires ClientPath(c, a, m) && ClientPath(m, b, d)
    ensures ClientPath(c, a + b, d)
  {
    hide ClientMay, ClientAfter;
    if b == [] {
      assert a + b == a;
    } else {
      var init, last := b[..|b| - 1], b[|b| - 1];
      Splits(b);
      ClientLast(m, b);
      hide ClientPath, ClientEnd, ClientRuns;
      ClientPathConcat(c, a, m, init, ClientEnd(m, init));
      ClientStep(c, a + init, ClientEnd(m, init), last);
      Joins(a, init, [last]);
    }
  }

  lemma ServerLast(c: Server, calls: seq<Call>)
    requires calls != [] && ServerRuns(c, calls)
    ensures var m, last := ServerEnd(c, calls[..|calls| - 1]), calls[|calls| - 1];
      ServerPath(c, calls[..|calls| - 1], m) && ServerMay(m, last) && ServerEnd(c, calls) == ServerAfter(m, last)
  {
    hide ServerMay, ServerAfter;
  }

  lemma {:induction false} ServerPathConcat(c: Server, a: seq<Call>, m: Server, b: seq<Call>, d: Server)
    requires ServerPath(c, a, m) && ServerPath(m, b, d)
    ensures ServerPath(c, a + b, d)
  {
    hide ServerMay, ServerAfter;
    if b == [] {
      assert a + b == a;
    } else {
      var init, last := b[..|b| - 1], b[|b| - 1];
      Splits(b);
      ServerLast(m, b);
      hide ServerPath, ServerEnd, ServerRuns;
      ServerPathConcat(c, a, m, init, ServerEnd(m, init));
      ServerStep(c, a + init, ServerEnd(m, init), last);
      Joins(a, init, [last]);
    }
  }

  lemma LastCall(calls: seq<Call>)
    requires calls != [] && (AllWrites(calls) || AllReads(calls))
    ensures var init := calls[..|calls| - 1];
      && (AllWrites(calls) ==> AllWrites(init)) && (AllReads(calls) ==> AllReads(init))
      && Bytes(calls) == Bytes(init) + calls[|calls| - 1].bytes && |Bytes(init)| < |Bytes(calls)|
  {
  }

  function SendingFrom(c: Client, q: Request, k: nat): Client
  {
    c.(phase := if k == |RequestBytes(q)| then Receiving(q, []) else Sending(q, k))
  }

  /** Writing a prefix of the request, in whatever pieces, is a path of the client. */
  lemma {:induction false} ClientWrites(c: Client, q: Request, calls: seq<Call>)
    requires c.status == Ok && c.phase == Sending(q, 0) && RequestBytes(q) != []
    requires AllWrites(calls) && Bytes(calls) <= RequestBytes(q)
    ensures ClientPath(c, calls, SendingFrom(c, q, |Bytes(calls)|))
  {
    hide RequestBytes, AllWrites;
    if calls != [] {
      var init, last := calls[..|calls| - 1], calls[|calls| - 1];
      LastCall(calls);
      AreWrites(calls);
      hide Bytes, ClientPath;
      ClientWrites(c, q, init);
      var m := SendingFrom(c, q, |Bytes(init)|);
      assert last.bytes == RequestBytes(q)[|Bytes(init)|..|Bytes(init)| + |last.bytes|];
      ClientStep(c, init, m, last);
      assert init + [last] == calls;
    }
  }

  lemma AreWrites(calls: seq<Call>)
    requires AllWrites(calls) && calls != []
    ensures calls[|calls| - 1].Wrote? && calls[|calls| - 1].bytes != []
  {
  }

  lemma AreReads(calls: seq<Call>)
    requires AllReads(calls) && calls != []
    ensures calls[|calls| - 1].Read? && calls[|calls| - 1].bytes != []
  {
  }

  /** Reading on from `got`, in whatever pieces, before the next check is due. */
  lemma {:induction false} ClientReadsOn(c: Client, q: Request, got: seq<Byte>, calls: seq<Call>)
    requires c.status == Ok && c.phase == Receiving(q, got)
    requires AllReads(calls) && |Bytes(calls)| < Wanted(|got|, RESPONSE_SIZE)
    ensures ClientPath(c, calls, c.(phase := Receiving(q, got + Bytes(calls))))
  {
    hide AllReads;
    if calls == [] {
      assert got + [] == got;
    } else {
      var init, last := calls[..|calls| - 1], calls[|calls| - 1];
      LastCall(calls);
      AreReads(calls);
      hide Bytes, ClientPath;
      ClientReadsOn(c, q, got, init);
      ClientStep(c, init, c.(phase := Receiving(q, got + Bytes(init))), last);
      Joins(got, Bytes(init), last.bytes);
      Splits(calls);
    }
  }

  /** Reading on up to the next check, which the last call triggers. */
  lemma ClientReads(c: Client, q: Request, got: seq<Byte>, calls: seq<Call>)
    requires c.status == Ok && c.phase == Receiving(q, got)
    requires AllReads(calls) && calls != [] && |Bytes(calls)| == Wanted(|got|, RESPONSE_SIZE)
    ensures ClientPath(c, calls, ClientGot(c, q, got + Bytes(calls)))
  {
    var init, last := calls[..|calls| - 1], calls[|calls| - 1];
    LastCall(calls);
    AreReads(calls);
    hide Bytes, ClientPath, AllReads, ClientGot;
    ClientReadsOn(c, q, got, init);
    ClientStep(c, init, c.(phase := Receiving(q, got + Bytes(init))), last);
    Joins(got, Bytes(init), last.bytes);
    Splits(calls);
  }

  lemma {:induction false} ServerReadsOn(p: Server, got: seq<Byte>, calls: seq<Call>)
    requires p.status == Ok && p.phase == Waiting(got)
    requires AllReads(calls) && |Bytes(calls)| < Wanted(|got|, REQUEST_SIZE)
    ensures ServerPath(p, calls, p.(phase := Waiting(got + Bytes(calls))))
  {
    hide AllReads;
    if calls == [] {
      assert got + [] == got;
    } else {
      var init, last := calls[..|calls| - 1], calls[|calls| - 1];
      LastCall(calls);
      AreReads(calls);
      hide Bytes, ServerPath;
      ServerReadsOn(p, got, init);
      ServerStep(p, init, p.(phase := Waiting(got + Bytes(init))), last);
      Joins(got, Bytes(init), last.bytes);
      Splits(calls);
    }
  }

  lemma ServerReads(p: Server, got: seq<Byte>, calls: seq<Call>)
    requires p.status == Ok && p.phase == Waiting(got)
    requires AllReads(calls) && calls != [] && |Bytes(calls)| == Wanted(|got|, REQUEST_SIZE)
    ensures ServerPath(p, calls, ServerGot(p, got + Bytes(calls)))
  {
    var init, last := calls[..|calls| - 1], calls[|calls| - 1];
    LastCall(calls);
    AreReads(calls);
    hide Bytes, ServerPath, AllReads, ServerGot;
    ServerReadsOn(p, got, init);
    ServerStep(p, init, p.(phase := Waiting(got + Bytes(init))), last);
    Joins(got, Bytes(init), last.bytes);
    Splits(calls);
  }

  function ReplyingFrom(p: Server, q: Request, r: RoiResult, k: nat): Server
  {
    p.(phase := if k == RESPONSE_SIZE then Waiting([]) else Replying(q, r, k))
  }

  lemma {:induction false} ServerWrites(p: Server, q: Request, r: RoiResult, calls: seq<Call>)
    requires p.status == Ok && p.phase == Replying(q, r, 0)
    requires AllWrites(calls) && Bytes(calls) <= Response(q, r)
    ensures ServerPath(p, calls, ReplyingFrom(p, q, r, |Bytes(calls)|))
  {
    hide AllWrites, ResponseBytes;
    if calls != [] {
      var init, last := calls[..|calls| - 1], calls[|calls| - 1];
      LastCall(calls);
      AreWrites(calls);
      hide Bytes, ServerPath;
      ServerWrites(p, q, r, init);
      var m := ReplyingFrom(p, q, r, |Bytes(init)|);
      assert last.bytes == Response(q, r)[|Bytes(init)|..|Bytes(init)| + |last.bytes|];
      ServerStep(p, init, m, last);
      assert init + [last] == calls;
    }
  }
}
