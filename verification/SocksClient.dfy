/**
The client's side of the handshake (dispatcher/proxytest.go:34-141): it reads in full
everywhere, so only the bytes matter and never how they are delivered.
*/
module SocksClient {
  import opened Links
  import opened Streams
  import opened Socks
  import opened SocksServer

  // The library's reading of a host as an IP literal, IPv4 in its four-byte form.
  datatype IP = IPv4(octets: seq<Byte>) | IPv6(octets: seq<Byte>)
  {
    predicate Proper() {
      |octets| == if IPv4? then 4 else 16
    }
  }

  type ParseIP = seq<Byte> -> Option<IP>

  ghost predicate Sound(parseIP: ParseIP) {
    forall text :: parseIP(text).Some? ==> parseIP(text).value.Proper()
  }

  function HostOf(host: seq<Byte>, parseIP: ParseIP): Host {
    match parseIP(host)
    case None => Name(host)
    case Some(IPv4(octets)) => V4(octets)
    case Some(IPv6(octets)) => V6(octets)
  }

  // The CONNECT request as it is built: the length and the port are cut to their widths.
  function RequestBytes(host: seq<Byte>, port: nat, parseIP: ParseIP): (r: seq<Byte>)
    ensures r != []
  {
    [VERSION, CONNECT, 0] +
    (match parseIP(host)
     case None => [ATYP_DOMAIN, |host| % 256] + host
     case Some(IPv4(octets)) => [ATYP_IPV4] + octets
     case Some(IPv6(octets)) => [ATYP_IPV6] + octets)
    + BigEndian(port % 0x1_0000)
  }

  // The range checks made before dialling the proxy.
  predicate InRange(host: seq<Byte>, port: int) {
    1 <= port <= 65535 && |host| <= 255
  }

  /** Within the range checks the request is the encoding of the destination. */
  lemma RequestIsEncoded(host: seq<Byte>, port: nat, parseIP: ParseIP)
    requires Sound(parseIP) && Destination(HostOf(host, parseIP), port).Fits()
    ensures RequestBytes(host, port, parseIP) == EncodedRequest(Destination(HostOf(host, parseIP), port), 0)
  {
  }

  /** Delivered whole, the request is decoded as what the client meant exactly when the
      destination fits its fields: a longer name or port would be taken for another. */
  lemma DecodedAsMeantIffItFits(host: seq<Byte>, port: nat, parseIP: ParseIP)
    requires Sound(parseIP)
    ensures var d, decision := Destination(HostOf(host, parseIP), port), Decide([RequestBytes(host, port, parseIP)]);
            decision.Accept? && decision.destination == d <==> d.Fits()
  {
    hide Decide, RequestBytes, EncodedRequest;
    var d, cs := Destination(HostOf(host, parseIP), port), [RequestBytes(host, port, parseIP)];
    if d.Fits() {
      RequestIsEncoded(host, port, parseIP);
      WholeHasNoCut(RequestBytes(host, port, parseIP), [], d.host);
      SegmentationSafety(cs, d, 0, []);
    }
    if Decide(cs).Accept? {
      AcceptedIsEncoded(cs);
    }
  }

  // A message delivered whole has no cut inside, whatever is delivered after it.
  lemma WholeHasNoCut(message: seq<Byte>, rest: Deliveries, h: Host)
    ensures Flat([message] + rest) == message + Flat(rest)
    ensures PlainFields(h)[|PlainFields(h)| - 1].1 <= |message| ==> NoFieldCut([message] + rest, h)
  {
    var cs := [message] + rest;
    assert cs[1..] == rest;
    forall c: nat | c < |message| ensures !IsCut(cs, c) {
    }
  }

  // ----- the reply

  // The length of the bound address and port after the reply header, if it is all there.
  function BoundLength(addrType: Byte, b: seq<Byte>): (r: Option<nat>)
    ensures r.Some? ==> r.value <= |b|
  {
    if addrType == ATYP_IPV4 then (if |b| >= 6 then Some(6) else None)
    else if addrType == ATYP_IPV6 then (if |b| >= 18 then Some(18) else None)
    else if addrType == ATYP_DOMAIN then
      (if |b| >= 1 && |b| >= 3 + b[0] as nat then Some(3 + b[0] as nat) else None)
    else None
  }

  datatype Outcome =
    | Established
    | WriteFailed
    | NoAnswer
    | UnexpectedVersion(version: Byte)
    | AuthenticationRequired(code: Byte)
    | Refused(status: Byte)
    | BadBoundAddress

  // What is wrong with the server's choice of method, if anything.
  function ChoiceProblem(b: seq<Byte>): Option<Outcome> {
    if |b| < 2 then Some(NoAnswer)
    else if b[0] != VERSION then Some(UnexpectedVersion(b[0]))
    else if b[1] != NOAUTH then Some(AuthenticationRequired(b[1]))
    else None
  }

  // What the reply comes to, and its length if it is a success.
  function ReplyOutcome(b: seq<Byte>): (r: (Outcome, nat))
    ensures r.0.Established? ==> 4 <= r.1 <= |b|
  {
    if |b| < 4 then (NoAnswer, 0)
    else if b[1] != SUCCESS then (Refused(b[1]), 0)
    else
      match BoundLength(b[3], b[4..])
      case None => (BadBoundAddress, 0)
      case Some(n) => (Established, 4 + n)
  }

  // What the client makes of the server's bytes, and how many it takes on success.
  function ClientOutcome(b: seq<Byte>, room: nat): (Outcome, nat) {
    if room == 0 then (WriteFailed, 0)
    else
      match ChoiceProblem(b)
      case Some(problem) => (problem, 0)
      case None =>
        if room == 1 then (WriteFailed, 0)
        else
          var (outcome, n) := ReplyOutcome(b[2..]);
          (outcome, if outcome.Established? then 2 + n else 0)
  }

  // A success reply of RFC 1928, section 6, with any bound address; the version and the
  // reserved byte are not looked at.
  ghost predicate SuccessReply(b: seq<Byte>) {
    exists v: Byte, reserved: Byte, bound: Destination ::
      bound.Fits() && b == [v, SUCCESS, reserved] + EncodedHost(bound.host) + BigEndian(bound.port)
  }

  /** The client takes exactly the choice and one success reply, of whichever address
      form, and it succeeds exactly when that is what the stream starts with and both its
      own messages got through. */
  lemma EstablishedIffSuccess(b: seq<Byte>, room: nat, n: nat)
    ensures ClientOutcome(b, room) == (Established, n) <==>
              room >= 2 && 2 <= n <= |b| && b[..2] == [VERSION, NOAUTH] && SuccessReply(b[2..n])
  {
    hide ReplyOutcome, SuccessReply;
    if |b| >= 2 {
      assert b[..2] == [b[0], b[1]];
      if 2 <= n <= |b| {
        assert b[2..n] == b[2..][..n - 2];
        SuccessOfReply(b[2..], n - 2);
      }
    }
  }

  /** What goes wrong otherwise, in the order in which the client notices it: a choice that
      is missing, is not of version 5 or asks for a method other than 0, and a reply that is
      missing, has a status other than 0, or lacks a readable bound address. */
  lemma OutcomeByBytes(b: seq<Byte>, room: nat)
    ensures var r := ClientOutcome(b, room).0;
            if room == 0 then r == WriteFailed
            else if |b| < 2 then r == NoAnswer
            else if b[0] != 5 then r == UnexpectedVersion(b[0])
            else if b[1] != 0 then r == AuthenticationRequired(b[1])
            else if room == 1 then r == WriteFailed
            else if |b| < 6 then r == NoAnswer
            else if b[3] != 0 then r == Refused(b[3])
            else r == Established || r == BadBoundAddress
  {
    hide BoundLength;
    if |b| >= 6 {
      assert b[2..][1] == b[3];
    }
  }

  lemma SuccessOfReply(b: seq<Byte>, n: nat)
    requires n <= |b|
    ensures ReplyOutcome(b) == (Established, n) <==> SuccessReply(b[..n])
  {
    hide ReplyOutcome, SuccessReply;
    if ReplyOutcome(b) == (Established, n) {
      EstablishedIsSuccess(b, n);
    }
    if SuccessReply(b[..n]) {
      SuccessIsEstablished(b, n);
    }
  }

  lemma SliceOfRest(b: seq<Byte>, from: nat, lo: nat, hi: nat)
    requires lo <= hi && from + hi <= |b|
    ensures b[from..][lo..hi] == b[from + lo..from + hi]
  {
  }

  lemma EstablishedIsSuccess(b: seq<Byte>, n: nat)
    requires n <= |b| && ReplyOutcome(b) == (Established, n)
    ensures SuccessReply(b[..n])
  {
    hide BigEndian, Number, BoundHost, EncodedHost;
    BoundIsEncoded(b[3], b[4..]);
    BigEndianInverse(0, b[n - 2..n]);
    var bound := Destination(BoundHost(b[3], b[4..]), Number(b[n - 2..n]));
    SliceOfRest(b, 4, n - 6, n - 4);
    SliceOfRest(b, 4, 0, n - 4);
    assert [b[3]] + b[4..][..n - 4] == b[3..n];
    assert b[..n] == [b[0], SUCCESS, b[2]] + EncodedHost(bound.host) + BigEndian(bound.port);
  }

  lemma SuccessIsEstablished(b: seq<Byte>, n: nat)
    requires n <= |b| && SuccessReply(b[..n])
    ensures ReplyOutcome(b) == (Established, n)
  {
    hide BigEndian, Number;
    var v: Byte, reserved: Byte, bound: Destination :|
      bound.Fits() && b[..n] == [v, SUCCESS, reserved] + EncodedHost(bound.host) + BigEndian(bound.port);
    assert b[..n][1] == b[1] && b[..n][3] == b[3];
    assert bound.host.Name? ==> b[..n][4] == b[4];
  }

  // The bound address the client skips.
  ghost function BoundHost(addrType: Byte, b: seq<Byte>): Host
    requires BoundLength(addrType, b).Some?
  {
    var n := BoundLength(addrType, b).value;
    if addrType == ATYP_IPV4 then V4(b[..n - 2])
    else if addrType == ATYP_IPV6 then V6(b[..n - 2])
    else Name(b[1..n - 2])
  }

  lemma BoundIsEncoded(addrType: Byte, b: seq<Byte>)
    requires BoundLength(addrType, b).Some?
    ensures var h, n := BoundHost(addrType, b), BoundLength(addrType, b).value;
            h.Fits() && n <= |b| && [addrType] + b[..n] == EncodedHost(h) + b[n - 2..n]
  {
  }

  // ----- the methods

  method DiscardBoundAddr(conn: Conn, addrType: Byte) returns (ok: bool)
    requires conn.Valid()
    modifies conn`incoming
    ensures conn.Valid()
    ensures match BoundLength(addrType, Flat(old(conn.incoming)))
            case None => !ok
            case Some(n) => ok && conn.incoming == Drop(old(conn.incoming), n)
  {
    hide Flat, Drop;
    ghost var cs := conn.incoming;
    StreamStart(cs);
    var n: nat := 0;
    ghost var at: nat := 0;
    if addrType == ATYP_IPV4 {
      n := 4;
    } else if addrType == ATYP_IPV6 {
      n := 16;
    } else if addrType == ATYP_DOMAIN {
      var length := NextInFull(conn, cs, 0, 1);
      if length.None? {
        return false;
      }
      n, at := length.value[0] as nat, 1;
    } else {
      return false;
    }
    var skipped := NextInFull(conn, cs, at, n + 2);
    return skipped.Some?;
  }

  lemma StreamStart(cs: Deliveries)
    ensures Drop(cs, 0) == cs
  {
  }

  method SendGreeting(conn: Conn) returns (ok: bool)
    modifies conn`outgoing, conn`room
    ensures ok == (old(conn.room) > 0)
    ensures conn.outgoing == Sending(old(conn.outgoing), EncodedGreeting(VERSION, [NOAUTH]), old(conn.room))
    ensures conn.room == Less(old(conn.room))
  {
    assert [VERSION, 1, NOAUTH] == EncodedGreeting(VERSION, [NOAUTH]);
    ok := conn.Write([VERSION, 1, NOAUTH]);
  }

  method ReadChoice(conn: Conn) returns (problem: Option<Outcome>)
    requires conn.Valid()
    modifies conn`incoming
    ensures conn.Valid() && problem == ChoiceProblem(Flat(old(conn.incoming)))
    ensures problem.None? ==> conn.incoming == Drop(old(conn.incoming), 2)
  {
    hide Flat, Drop;
    var reply := conn.ReadFull(2);
    if reply.None? {
      return Some(NoAnswer);
    }
    if reply.value[0] != VERSION {
      return Some(UnexpectedVersion(reply.value[0]));
    }
    if reply.value[1] != NOAUTH {
      return Some(AuthenticationRequired(reply.value[1]));
    }
    return None;
  }

  method SendRequest(conn: Conn, host: seq<Byte>, port: nat, parseIP: ParseIP) returns (ok: bool)
    modifies conn`outgoing, conn`room
    ensures ok == (old(conn.room) > 0)
    ensures conn.outgoing == Sending(old(conn.outgoing), RequestBytes(host, port, parseIP), old(conn.room))
    ensures conn.room == Less(old(conn.room))
  {
    var req: seq<Byte> := [VERSION, CONNECT, 0x00];
    match parseIP(host) {
      case None =>
        req := req + [ATYP_DOMAIN, |host| % 256];
        req := req + host;
      case Some(IPv4(octets)) =>
        req := req + [ATYP_IPV4];
        req := req + octets;
      case Some(IPv6(octets)) =>
        req := req + [ATYP_IPV6];
        req := req + octets;
    }
    req := req + BigEndian(port % 0x1_0000);
    assert req == RequestBytes(host, port, parseIP);
    ok := conn.Write(req);
  }

  method ReadReply(conn: Conn) returns (r: Outcome)
    requires conn.Valid()
    modifies conn`incoming
    ensures conn.Valid() && r == ReplyOutcome(Flat(old(conn.incoming))).0
    ensures r.Established? ==> conn.incoming == Drop(old(conn.incoming), ReplyOutcome(Flat(old(conn.incoming))).1)
  {
    hide Flat, Drop, BoundLength;
    ghost var cs := conn.incoming;
    var head := conn.ReadFull(4);
    if head.None? {
      return NoAnswer;
    }
    if head.value[1] != SUCCESS {
      return Refused(head.value[1]);
    }
    FlatDrop(cs, 4);
    var ok := DiscardBoundAddr(conn, head.value[3]);
    if !ok {
      return BadBoundAddress;
    }
    DropDrop(cs, 4, BoundLength(head.value[3], Flat(cs)[4..]).value);
    return Established;
  }

  /** The handshake over an open connection: its outcome depends on the bytes received and
      not on how they were cut, and on success the stream stands at the payload. */
  method Socks5Handshake(conn: Conn, host: seq<Byte>, port: nat, parseIP: ParseIP) returns (r: Outcome)
    requires conn.Valid()
    modifies conn`incoming, conn`outgoing, conn`room
    ensures conn.Valid() && r == ClientOutcome(Flat(old(conn.incoming)), old(conn.room)).0
    ensures r.Established? ==>
              conn.incoming == Drop(old(conn.incoming), ClientOutcome(Flat(old(conn.incoming)), old(conn.room)).1)
    ensures conn.outgoing ==
            old(conn.outgoing) + Sent(host, port, parseIP, ChoiceProblem(Flat(old(conn.incoming))), old(conn.room))
  {
    hide Flat, Drop, ReplyOutcome, ChoiceProblem, EncodedGreeting, RequestBytes;
    ghost var cs := conn.incoming;
    var ok := SendGreeting(conn);
    if !ok {
      return WriteFailed;
    }
    var problem := ReadChoice(conn);
    ChoiceRead(Flat(cs));
    if problem.Some? {
      return problem.value;
    }
    ok := SendRequest(conn, host, port, parseIP);
    if !ok {
      return WriteFailed;
    }
    FlatDrop(cs, 2);
    r := ReadReply(conn);
    if r.Established? {
      DropDrop(cs, 2, ReplyOutcome(Flat(cs)[2..]).1);
    }
  }

  lemma ChoiceRead(b: seq<Byte>)
    ensures ChoiceProblem(b).None? ==> |b| >= 2
    ensures ChoiceProblem(b).Some? ==> !ChoiceProblem(b).value.Established?
  {
  }

  // What the client writes: nothing if it cannot, and no request before a good choice.
  ghost function Sent(host: seq<Byte>, port: nat, parseIP: ParseIP, problem: Option<Outcome>, room: nat): Deliveries {
    if room == 0 then []
    else if problem.Some? || room == 1 then [EncodedGreeting(VERSION, [NOAUTH])]
    else [EncodedGreeting(VERSION, [NOAUTH]), RequestBytes(host, port, parseIP)]
  }

  /** The greeting is the first thing sent, if anything can be, and the request follows only
      the choice of version 5 without authentication. */
  lemma RequestFollowsChoice(host: seq<Byte>, port: nat, parseIP: ParseIP, b: seq<Byte>, room: nat)
    ensures var sent := Sent(host, port, parseIP, ChoiceProblem(b), room);
            && (room > 0 <==> sent != []) && (room > 0 ==> sent[0] == [5, 1, 0])
            && (|sent| > 1 <==> room > 1 && |b| >= 2 && b[..2] == [5, 0])
            && (|sent| > 1 ==> sent == [sent[0], RequestBytes(host, port, parseIP)])
  {
    hide RequestBytes;
    if |b| >= 2 {
      assert b[..2] == [b[0], b[1]];
    }
  }

  /** The range checks turn down exactly what the request could not say: a name or port that
      does not fit its field, port 0, or a text longer than a name may be. */
  lemma InRangeIff(host: seq<Byte>, port: nat, parseIP: ParseIP)
    requires Sound(parseIP)
    ensures InRange(host, port) <==>
            port > 0 && Destination(HostOf(host, parseIP), port).Fits() && Host.Name(host).Fits()
  {
    if parseIP(host).Some? {
      assert parseIP(host).value.Proper();
    }
  }

  datatype DialResult = InvalidPort | HostTooLong | HandshakeFailed(outcome: Outcome) | Connected

  /** Opens a connection through the proxy: a destination that does not fit the request is
      turned down before anything is written, and a failed handshake closes. */
  method Socks5Dial(conn: Conn, host: seq<Byte>, port: int, parseIP: ParseIP) returns (r: DialResult)
    requires conn.Valid() && !conn.closed
    modifies conn
    ensures conn.Valid()
    ensures r.InvalidPort? || r.HostTooLong? <==> !InRange(host, port)
    ensures r.InvalidPort? <==> !(1 <= port <= 65535)
    ensures r.HostTooLong? <==> 1 <= port <= 65535 && |host| > 255
    ensures !InRange(host, port) ==> conn.incoming == old(conn.incoming) && conn.outgoing == old(conn.outgoing)
    ensures conn.closed <==> r.HandshakeFailed?
    ensures InRange(host, port) ==>
              var (outcome, n) := ClientOutcome(Flat(old(conn.incoming)), old(conn.room));
              && r == (if outcome.Established? then Connected else HandshakeFailed(outcome))
              && (r.Connected? ==> conn.incoming == Drop(old(conn.incoming), n))
              && conn.outgoing ==
                 old(conn.outgoing) + Sent(host, port, parseIP, ChoiceProblem(Flat(old(conn.incoming))), old(conn.room))
  {
    hide Flat, Drop, ClientOutcome, Sent;
    if port < 1 || port > 65535 {
      return InvalidPort;
    }
    if |host| > 255 {
      return HostTooLong;
    }
    var outcome := Socks5Handshake(conn, host, port, parseIP);
    if !outcome.Established? {
      conn.Close();
      return HandshakeFailed(outcome);
    }
    return Connected;
  }
}
