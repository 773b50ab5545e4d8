/** One connection with both endpoints at work: bytes move in pieces of any size, the two sides
    interleave in any way, and either may fail at any moment. */
module TcpSession {
  import opened RoiProtocol
  import opened TcpParties

  /** `up` and `down` are the bytes in flight. A side that is no longer Ok has closed the
      connection. `computed` and `received` list what the server answered and what `classify`
      returned with Ok. */
  datatype System = System(client: ClientPhase, clientStatus: Status, server: ServerPhase, serverStatus: Status,
                           up: seq<Byte>, down: seq<Byte>, computed: seq<Answer>, received: seq<Answer>)

  const INITIAL := System(Idle, Ok, Waiting([]), Ok, [], [], [], [])

  datatype Event = Call(q: Request) | ClientSends(n: nat) | ClientReceives(n: nat) | ClientFails(s: Status)
                 | ServerReceives(n: nat) | ServerComputes(r: RoiResult) | ServerSends(n: nat) | ServerFails(s: Status)

  predicate IoFailure(s: Status) { s == SystemError || s == PeerClosed }

  function ClientOf(s: System): Client { Client(s.client, s.clientStatus, s.received) }

  function ServerOf(s: System): Server { Server(s.server, s.serverStatus) }

  function WithClient(s: System, c: Client): System
  {
    s.(client := c.phase, clientStatus := c.status, received := c.received)
  }

  function WithServer(s: System, p: Server): System { s.(server := p.phase, serverStatus := p.status) }

  /** The bytes that a call moves. */
  function ClientPiece(s: System, n: nat): seq<Byte>
    requires s.client.Sending? && s.client.k + n <= |RequestBytes(s.client.q)|
  {
    RequestBytes(s.client.q)[s.client.k..s.client.k + n]
  }

  function ServerPiece(s: System, n: nat): seq<Byte>
    requires s.server.Replying? && s.server.k + n <= RESPONSE_SIZE
  {
    Response(s.server.q, s.server.r)[s.server.k..s.server.k + n]
  }

  predicate Enabled(s: System, e: Event)
  {
    match e
    case Call(q) => s.clientStatus == Ok && s.client.Idle? && WellFormed(q)
    case ClientSends(n) =>
      && s.client.Sending? && s.client.k + n <= |RequestBytes(s.client.q)|
      && ClientMay(ClientOf(s), Wrote(ClientPiece(s, n)))
    case ClientReceives(n) => n <= |s.down| && ClientMay(ClientOf(s), Read(s.down[..n]))
    case ClientFails(x) => s.clientStatus == Ok && IoFailure(x)
    case ServerReceives(n) => n <= |s.up| && ServerMay(ServerOf(s), Read(s.up[..n]))
    case ServerComputes(r) => s.serverStatus == Ok && s.server.Working? && AcceptableResult(r)
    case ServerSends(n) =>
      s.server.Replying? && s.server.k + n <= RESPONSE_SIZE && ServerMay(ServerOf(s), Wrote(ServerPiece(s, n)))
    case ServerFails(x) => s.serverStatus == Ok && IoFailure(x)
  }

  /** Both parties move exactly as their calls do, the bytes going through the two streams. */
  function Next(s: System, e: Event): System
    requires Enabled(s, e)
  {
    match e
    case Call(q) => s.(client := Sending(q, 0))
    case ClientSends(n) =>
      WithClient(s.(up := s.up + ClientPiece(s, n)), ClientAfter(ClientOf(s), Wrote(ClientPiece(s, n))))
    case ClientReceives(n) =>
      WithClient(s.(down := s.down[n..]), ClientAfter(ClientOf(s), Read(s.down[..n])))
    case ClientFails(x) => s.(clientStatus := x)
    case ServerReceives(n) =>
      WithServer(s.(up := s.up[n..]), ServerAfter(ServerOf(s), Read(s.up[..n])))
    case ServerComputes(r) => s.(server := Replying(s.server.q, r, 0), computed := s.computed + [Answer(s.server.q, r)])
    case ServerSends(n) =>
      WithServer(s.(down := s.down + ServerPiece(s, n)), ServerAfter(ServerOf(s), Wrote(ServerPiece(s, n))))
    case ServerFails(x) => s.(serverStatus := x)
  }

  /** Every call a client may make is a step of the session once the bytes it reads have arrived;
      it moves exactly its own bytes and leaves the server alone. */
  lemma ClientCallIsStep(s: System, call: Call) returns (e: Event)
    requires ClientMay(ClientOf(s), call) && (call.Read? ==> call.bytes <= s.down)
    ensures Enabled(s, e) && ClientOf(Next(s, e)) == ClientAfter(ClientOf(s), call)
    ensures ServerOf(Next(s, e)) == ServerOf(s) && Next(s, e).computed == s.computed
    ensures Next(s, e).up == s.up + (if call.Wrote? then call.bytes else [])
    ensures (if call.Read? then call.bytes else []) + Next(s, e).down == s.down
  {
    hide RequestBytes, ClientGot;
    var n := |call.bytes|;
    e := if call.Wrote? then ClientSends(n) else ClientReceives(n);
    assert call == if call.Wrote? then Wrote(ClientPiece(s, n)) else Read(s.down[..n]);
    hide ClientMay, ClientAfter;
  }

  lemma ServerCallIsStep(s: System, call: Call) returns (e: Event)
    requires ServerMay(ServerOf(s), call) && (call.Read? ==> call.bytes <= s.up)
    ensures Enabled(s, e) && ServerOf(Next(s, e)) == ServerAfter(ServerOf(s), call)
    ensures ClientOf(Next(s, e)) == ClientOf(s) && Next(s, e).computed == s.computed
    ensures Next(s, e).down == s.down + (if call.Wrote? then call.bytes else [])
    ensures (if call.Read? then call.bytes else []) + Next(s, e).up == s.up
  {
    hide Response, ServerGot;
    var n := |call.bytes|;
    e := if call.Wrote? then ServerSends(n) else ServerReceives(n);
    assert call == if call.Wrote? then Wrote(ServerPiece(s, n)) else Read(s.up[..n]);
    hide ServerMay, ServerAfter;
  }

  // ---------------------------------------------------------------- the invariant

  /** Nothing is under way in either direction. */
  predicate AtBoundary(s: System)
  {
    s.server == Waiting([]) && s.up == [] && s.down == []
  }

  /** The request is on its way to the server. */
  predicate RequestUnderWay(s: System, q: Request, k: nat)
  {
    && WellFormed(q) && k <= |RequestBytes(q)| && s.down == []
    && s.server.Waiting? && s.server.got + s.up == RequestBytes(q)[..k] && |s.server.got| < REQUEST_SIZE
  }

  /** The server is answering request `q`; the client has `got` so far. */
  ghost predicate ResponseUnderWay(s: System, q: Request, got: seq<Byte>)
  {
    && s.up == []
    && match s.server
       case Waiting(g) => g == [] && exists r :: got + s.down == Response(q, r) && AnsweredBy(s, q, r)
       case Working(p) => p == q && got == [] && s.down == [] && s.computed == s.received
       case Replying(p, r, k) =>
         p == q && k < RESPONSE_SIZE && got + s.down == Response(q, r)[..k] && AnsweredBy(s, q, r)
  }

  predicate AnsweredBy(s: System, q: Request, r: RoiResult)
  {
    AcceptableResult(r) && s.computed == s.received + [Answer(q, r)]
  }

  /** The two sides are in step, whether or not one of them has closed in the meantime. */
  ghost predicate InStep(s: System)
  {
    match s.client
    case Idle => AtBoundary(s) && s.computed == s.received
    case Sending(q, k) => k < |RequestBytes(q)| && RequestUnderWay(s, q, k) && s.computed == s.received
    case Receiving(q, got) =>
      && WellFormed(q) && |got| < RESPONSE_SIZE
      && ((got == [] && s.computed == s.received && RequestUnderWay(s, q, |RequestBytes(q)|))
          || ResponseUnderWay(s, q, got))
  }

  ghost predicate Inv(s: System)
  {
    InStep(s) && s.clientStatus != ProtocolError && s.serverStatus != ProtocolError
  }

  lemma RequestPrefix(q: Request, got: seq<Byte>, k: nat)
    requires WellFormed(q) && k <= |RequestBytes(q)| && |got| <= k && got == RequestBytes(q)[..|got|]
    ensures |RequestBytes(q)| == REQUEST_SIZE
    ensures |got| == HEADER_SIZE ==> ValidRequestHeader(DecodeHeader(got))
    ensures |got| == REQUEST_SIZE ==> ParseRequest(got) == q
  {
    hide RequestBytes, DecodeHeader, ParseRequest;
    RequestRoundTrip(q);
    if |got| == REQUEST_SIZE { assert got == RequestBytes(q); }
  }

  lemma ResponsePrefix(q: Request, r: RoiResult, got: seq<Byte>)
    requires |got| <= RESPONSE_SIZE && got == Response(q, r)[..|got|]
    ensures |got| == HEADER_SIZE ==> AnswersHeader(q, DecodeHeader(got))
    ensures |got| == RESPONSE_SIZE ==> DecodeResult(got[HEADER_SIZE..]) == r
  {
    hide ResponseBytes, DecodeHeader, DecodeResult;
    ResponseRoundTrip(RequestHeader(q), r);
    if |got| == RESPONSE_SIZE { assert got == Response(q, r); }
  }

  lemma ClientSendsInv(s: System, e: Event)
    requires Inv(s) && e.ClientSends? && Enabled(s, e)
    ensures Inv(Next(s, e))
  {
    hide RequestBytes, Response;
    var q, k := s.client.q, s.client.k;
    var b := RequestBytes(q);
    assert b[..k] + b[k..k + e.n] == b[..k + e.n];
    assert s.server.got + (s.up + b[k..k + e.n]) == (s.server.got + s.up) + b[k..k + e.n];
  }

  lemma ClientReceivesInv(s: System, e: Event)
    requires Inv(s) && e.ClientReceives? && Enabled(s, e)
    ensures Inv(Next(s, e))
  {
    hide RequestBytes, Response, DecodeHeader, DecodeResult, AnswersHeader, AcceptableResult;
    var q, got := s.client.q, s.client.got;
    var now, later := got + s.down[..e.n], s.down[e.n..];
    assert now + later == got + s.down;
    if s.server.Waiting? {
      var r :| got + s.down == Response(q, r) && AnsweredBy(s, q, r);
      assert now == (got + s.down)[..|now|];
      ResponsePrefix(q, r, now);
      if |now| < RESPONSE_SIZE { assert AnsweredBy(Next(s, e), q, r); }
    } else {
      var r := s.server.r;
      assert now == (got + s.down)[..|now|] == Response(q, r)[..|now|];
      ResponsePrefix(q, r, now);
    }
  }

  lemma ServerReceivesInv(s: System, e: Event)
    requires Inv(s) && e.ServerReceives? && Enabled(s, e)
    ensures Inv(Next(s, e))
  {
    hide RequestBytes, Response, DecodeHeader, ParseRequest, ValidRequestHeader;
    var q := s.client.q;
    var k := if s.client.Sending? then s.client.k else |RequestBytes(q)|;
    assert RequestUnderWay(s, q, k);
    var got := s.server.got + s.up[..e.n];
    assert got + s.up[e.n..] == s.server.got + s.up;
    assert got == RequestBytes(q)[..k][..|got|] == RequestBytes(q)[..|got|];
    RequestPrefix(q, got, k);
  }

  lemma ServerSendsInv(s: System, e: Event)
    requires Inv(s) && e.ServerSends? && Enabled(s, e)
    ensures Inv(Next(s, e))
  {
    hide RequestBytes, Response;
    var q, r, k := s.server.q, s.server.r, s.server.k;
    var b := Response(q, r);
    assert b[..k] + b[k..k + e.n] == b[..k + e.n];
    var t := Next(s, e);
    assert s.client.got + t.down == (s.client.got + s.down) + b[k..k + e.n];
    assert b[..RESPONSE_SIZE] == b;
    if k + e.n == RESPONSE_SIZE { assert s.client.got + t.down == Response(q, r) && AnsweredBy(t, q, r); }
  }

  lemma CallInv(s: System, e: Event)
    requires Inv(s) && e.Call? && Enabled(s, e)
    ensures Inv(Next(s, e))
  {
    hide RequestBytes, Response;
    RequestPrefix(e.q, [], 0);
  }

  lemma OtherInv(s: System, e: Event)
    requires Inv(s) && Enabled(s, e) && (e.ClientFails? || e.ServerFails? || e.ServerComputes?)
    ensures Inv(Next(s, e))
  {
    hide RequestBytes, Response;
    var t := Next(s, e);
    if e.ServerComputes? {
      assert s.client.got + s.down == [];
      assert Response(t.server.q, t.server.r)[..0] == [];
    } else if s.client.Receiving? && s.server.Waiting? && ResponseUnderWay(s, s.client.q, s.client.got) {
      var r :| s.client.got + s.down == Response(s.client.q, r) && AnsweredBy(s, s.client.q, r);
      assert AnsweredBy(t, s.client.q, r);
    }
  }

  lemma NextInv(s: System, e: Event)
    requires Inv(s) && Enabled(s, e)
    ensures Inv(Next(s, e))
  {
    hide Inv, Enabled, Next;
    match e
    case Call(_) => CallInv(s, e);
    case ClientSends(_) => ClientSendsInv(s, e);
    case ClientReceives(_) => ClientReceivesInv(s, e);
    case ServerReceives(_) => ServerReceivesInv(s, e);
    case ServerSends(_) => ServerSendsInv(s, e);
    case _ => OtherInv(s, e);
  }

  ghost predicate Step(s: System, e: Event, t: System) { Enabled(s, e) && t == Next(s, e) }

  /** A run over one connection. */
  ghost predicate IsRun(run: seq<System>, events: seq<Event>)
  {
    && |run| == |events| + 1 && run[0] == INITIAL
    && forall i, j :: 0 <= i && j == i + 1 < |run| ==> Step(run[i], events[i], run[j])
  }

  lemma {:induction false} RunInv(run: seq<System>, events: seq<Event>, k: nat)
    requires IsRun(run, events) && k < |run|
    ensures Inv(run[k])
  {
    if k > 0 {
      RunInv(run, events, k - 1);
      assert Step(run[k - 1], events[k - 1], run[k]);
      NextInv(run[k - 1], events[k - 1]);
    }
  }

  /** In every run: between calls both directions are at a message boundary; each result that
      `classify` returned is the one the server computed for that same request, in order; at most
      one answer has not arrived; and neither side ever sees a protocol error. */
  lemma InStepAlways(run: seq<System>, events: seq<Event>, k: nat)
    requires IsRun(run, events) && k < |run|
    ensures var s := run[k];
      && (s.client.Idle? ==> AtBoundary(s) && s.received == s.computed)
      && s.received <= s.computed && |s.computed| <= |s.received| + 1
      && s.clientStatus != ProtocolError && s.serverStatus != ProtocolError
  {
    RunInv(run, events, k);
    hide RequestBytes, Response;
  }

  // ---------------------------------------------------------------- progress

  /** Bytes and steps still to come before the pending call has its answer. */
  function Outstanding(s: System): nat
  {
    match s.client
    case Idle => 0
    case Sending(q, k) => 3 * REQUEST_SIZE + 3 * RESPONSE_SIZE - (if k < REQUEST_SIZE then k else REQUEST_SIZE) + 1
    case Receiving(q, got) =>
      (if |got| < RESPONSE_SIZE then RESPONSE_SIZE - |got| else 0)
      + match s.server
        case Waiting(g) =>
          if s.down != [] then 0
          else 2 * RESPONSE_SIZE + 2 * REQUEST_SIZE - (if |g| < REQUEST_SIZE then |g| else 0)
        case Working(_) => 2 * RESPONSE_SIZE
        case Replying(_, _, k) => if k < RESPONSE_SIZE then RESPONSE_SIZE - k else 0
  }

  /** The session never blocks: while neither side has failed and a call is pending, one of the two can
      take a step that is not a failure and brings the answer nearer. */
  lemma NoDeadlock(s: System) returns (e: Event)
    requires Inv(s) && s.clientStatus == Ok && s.serverStatus == Ok && !s.client.Idle?
    ensures Enabled(s, e) && !e.ClientFails? && !e.ServerFails? && !e.Call?
    ensures Outstanding(Next(s, e)) < Outstanding(s)
  {
    match s.client
    case Sending(q, k) => e := SendOn(s);
    case Receiving(q, got) =>
      if s.server.Working? {
        e := ServerComputes(RoiResult(STATUS_INVALID_PAYLOAD, INVALID_CLASS_ID, 0));
      } else if s.server.Replying? {
        e := ReplyOn(s);
      } else if s.down != [] {
        e := ReceiveOn(s);
      } else {
        e := ServeOn(s);
      }
  }

  lemma SendOn(s: System) returns (e: Event)
    requires Inv(s) && s.clientStatus == Ok && s.client.Sending?
    ensures Enabled(s, e) && e.ClientSends? && Outstanding(Next(s, e)) < Outstanding(s)
  {
    hide RequestBytes, Response;
    RequestPrefix(s.client.q, [], 0);
    e := ClientSends(|RequestBytes(s.client.q)| - s.client.k);
    assert ClientPiece(s, e.n) == RequestBytes(s.client.q)[s.client.k..];
  }

  lemma ReplyOn(s: System) returns (e: Event)
    requires Inv(s) && s.serverStatus == Ok && s.server.Replying? && s.client.Receiving?
    ensures Enabled(s, e) && e.ServerSends? && Outstanding(Next(s, e)) < Outstanding(s)
  {
    hide RequestBytes, Response;
    e := ServerSends(RESPONSE_SIZE - s.server.k);
    assert ServerPiece(s, e.n) == Response(s.server.q, s.server.r)[s.server.k..];
  }

  lemma ReceiveOn(s: System) returns (e: Event)
    requires Inv(s) && s.clientStatus == Ok && s.client.Receiving? && s.server.Waiting? && s.down != []
    ensures Enabled(s, e) && e.ClientReceives? && Outstanding(Next(s, e)) < Outstanding(s)
  {
    hide RequestBytes, Response, DecodeHeader, DecodeResult, AnswersHeader, AcceptableResult;
    e := ClientReceives(1);
    assert |s.client.got + s.down| == RESPONSE_SIZE;
    ClientReceivesInv(s, e);
    var t := Next(s, e);
    assert t.clientStatus != ProtocolError;
    if |s.client.got| + 1 == RESPONSE_SIZE { assert t.client.Idle?; }
  }

  lemma ServeOn(s: System) returns (e: Event)
    requires Inv(s) && s.serverStatus == Ok && s.client.Receiving? && s.server.Waiting? && s.down == []
    ensures Enabled(s, e) && e.ServerReceives? && Outstanding(Next(s, e)) < Outstanding(s)
  {
    hide RequestBytes, Response, DecodeHeader, ParseRequest, ValidRequestHeader;
    RequestPrefix(s.client.q, [], 0);
    e := ServerReceives(1);
  }

  /** Every result the server computes along the run is right for the request it was computed for. */
  ghost predicate ComputesOnly(run: seq<System>, events: seq<Event>, right: (Request, RoiResult) -> bool)
    requires IsRun(run, events)
  {
    forall i :: 0 <= i < |events| && events[i].ServerComputes? ==>
      run[i].server.Working? && right(run[i].server.q, events[i].r)
  }

  ghost predicate AllRight(answers: seq<Answer>, right: (Request, RoiResult) -> bool)
  {
    forall i :: 0 <= i < |answers| ==> right(answers[i].q, answers[i].r)
  }

  lemma {:induction false} ComputedAreRight(run: seq<System>, events: seq<Event>, k: nat,
                                            right: (Request, RoiResult) -> bool)
    requires IsRun(run, events) && k < |run| && ComputesOnly(run, events, right)
    ensures AllRight(run[k].computed, right)
  {
    hide ClientMay, ClientAfter, ServerMay, ServerAfter, RequestBytes, Response;
    if k > 0 {
      ComputedAreRight(run, events, k - 1, right);
      assert Step(run[k - 1], events[k - 1], run[k]);
    }
  }

  /** Whatever holds of every result and the request it was computed for holds of every result that
      `classify` returned and the request it was called with. */
  lemma ReceivedAreRight(run: seq<System>, events: seq<Event>, k: nat, right: (Request, RoiResult) -> bool)
    requires IsRun(run, events) && k < |run| && ComputesOnly(run, events, right)
    ensures AllRight(run[k].received, right)
  {
    hide IsRun, ComputesOnly, Inv;
    ComputedAreRight(run, events, k, right);
    InStepAlways(run, events, k);
    var a, b := run[k].received, run[k].computed;
    assert forall i :: 0 <= i < |a| ==> a[i] == b[i];
  }

  /** The requests answered are the requests called, in the order of the calls. */
  function Calls(events: seq<Event>): seq<Request>
  {
    if events == [] then []
    else Calls(events[..|events| - 1]) + if events[|events| - 1].Call? then [events[|events| - 1].q] else []
  }

  function Requests(a: seq<Answer>): (qs: seq<Request>)
    ensures |qs| == |a|
  {
    seq(|a|, i requires 0 <= i < |a| => a[i].q)
  }

  /** Calls made so far: those answered, and the one under way. */
  function Asked(s: System): seq<Request>
  {
    Requests(s.received) + if s.client.Idle? then [] else [s.client.q]
  }

  lemma AskedStep(s: System, e: Event)
    requires Inv(s) && Enabled(s, e)
    ensures Asked(Next(s, e)) == Asked(s) + if e.Call? then [e.q] else []
  {
    hide RequestBytes, Response, DecodeHeader, DecodeResult, AnswersHeader, AcceptableResult, Inv;
    var t := Next(s, e);
    if |t.received| == |s.received| {
      assert t.received == s.received;
    } else {
      assert t.received[..|s.received|] == s.received && t.received[|s.received|].q == s.client.q;
      assert Requests(t.received) == Requests(s.received) + [s.client.q];
    }
  }

  lemma {:induction false} EachCallAnsweredOnce(run: seq<System>, events: seq<Event>, k: nat)
    requires IsRun(run, events) && k < |run|
    ensures Asked(run[k]) == Calls(events[..k])
  {
    hide Inv, Next, Enabled;
    if k > 0 {
      EachCallAnsweredOnce(run, events, k - 1);
      RunInv(run, events, k - 1);
      assert Step(run[k - 1], events[k - 1], run[k]);
      AskedStep(run[k - 1], events[k - 1]);
      assert events[..k][..k - 1] == events[..k - 1];
    }
  }
}
