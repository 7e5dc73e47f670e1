/**
Both ends of the handshake together: the client of dispatcher/proxytest.go against the
server of dispatcher/socks.go and dispatcher/server_response.go with its dispatcher, step
by step in the only order in which neither waits for ever.
*/
module SocksSession {
  import opened Links
  import opened Scheduling
  import opened Dispatching
  import opened Destinations
  import opened ServerResponse
  import opened Streams
  import opened Socks
  import opened SocksServer
  import opened SocksClient

  // A way to cut bytes into deliveries.
  type Cutting = seq<Byte> -> Deliveries

  ghost predicate Faithful(cut: Cutting) {
    forall b :: Proper(cut(b)) && Flat(cut(b)) == b
  }

  lemma CutBytes(cut: Cutting, b: seq<Byte>)
    requires Faithful(cut)
    ensures Proper(cut(b)) && Flat(cut(b)) == b
  {
  }

  // What the client has written arrives whole.
  method DeliverWhole(from: Conn, to: Conn)
    requires from != to && to.incoming == [] && Proper(from.outgoing)
    modifies from`outgoing, to`incoming
    ensures from.outgoing == [] && to.Valid() && to.incoming == old(from.outgoing)
  {
    to.incoming := from.outgoing;
    from.outgoing := [];
  }

  // What the server has written arrives cut in some way.
  method DeliverCut(from: Conn, to: Conn, cut: Cutting)
    requires from != to && to.incoming == [] && Faithful(cut)
    modifies from`outgoing, to`incoming
    ensures from.outgoing == [] && to.Valid() && Flat(to.incoming) == Flat(old(from.outgoing))
  {
    CutBytes(cut, Flat(from.outgoing));
    to.incoming := cut(Flat(from.outgoing));
    from.outgoing := [];
  }

  lemma Two(first: seq<Byte>, second: seq<Byte>, room: nat)
    requires room > 0
    ensures Sending([first], second, room) == [first, second]
    ensures Flat([first, second]) == first + second
  {
    assert [first, second][1..] == [second] && [second][1..] == [];
    FlatUnfolds([second]);
  }

  // The client's greeting, delivered whole, is read to its end.
  lemma GreetingRead()
    ensures var cs := [EncodedGreeting(VERSION, [NOAUTH])];
            Proper(cs) && GreetingLength(cs) == Some(3) && Drop(cs, 3) == []
  {
    var cs := [[VERSION, 1, NOAUTH]];
    assert EncodedGreeting(VERSION, [NOAUTH]) == [VERSION, 1, NOAUTH];
    assert Flat(cs) == [VERSION, 1, NOAUTH];
    assert Drop(cs, 2) == [[VERSION, 1, NOAUTH][2..]];
  }

  // The client's request, delivered whole, is decoded as meant and read to its end.
  lemma RequestRead(host: seq<Byte>, port: nat, parseIP: ParseIP)
    requires Sound(parseIP) && Destination(HostOf(host, parseIP), port).Fits()
    ensures var request := RequestBytes(host, port, parseIP);
            && Proper([request])
            && Decide([request]) == Accept(Destination(HostOf(host, parseIP), port), |request|)
            && Drop([request], |request|) == []
  {
    hide Decide, RequestBytes, EncodedRequest;
    var request, d := RequestBytes(host, port, parseIP), Destination(HostOf(host, parseIP), port);
    RequestIsEncoded(host, port, parseIP);
    WholeHasNoCut(request, [], d.host);
    LastFieldEnds(d);
    assert [request] + [] == [request];
    SegmentationSafety([request], d, 0, []);
  }

  lemma LastFieldEnds(d: Destination)
    requires d.Fits()
    ensures PlainFields(d.host)[|PlainFields(d.host)| - 1].1 <= |EncodedRequest(d, 0)|
  {
  }

  lemma RefusalIsNoSuccess()
    ensures NETWORK_UNREACHABLE != SUCCESS
  {
  }

  // A reply followed by payload: the client takes the reply and no more.
  lemma ReplyRead(status: Byte, payload: seq<Byte>)
    ensures ReplyOutcome(Reply(status) + payload) ==
            if status == SUCCESS then (Established, 10) else (Refused(status), 0)
    ensures (Reply(status) + payload)[10..] == payload
  {
  }

  // Up to the decoded destination.
  method Exchange(client: Conn, server: Conn, host: seq<Byte>, port: nat, parseIP: ParseIP, cut: Cutting)
    returns (decoded: Option<Destination>)
    requires client != server && client.room >= 2 && server.room >= 3
    requires client.incoming == client.outgoing == server.incoming == server.outgoing == []
    requires Sound(parseIP) && InRange(host, port) && Faithful(cut)
    modifies client, server
    ensures decoded == Some(Destination(HostOf(host, parseIP), port))
    ensures client.incoming == client.outgoing == server.incoming == server.outgoing == []
    ensures server.room == old(server.room) - 1 && server.closed == old(server.closed)
  {
    hide *;
    decoded := None;
    InRangeFits(host, port, parseIP);

    var ok := SendGreeting(client);
    GreetingRead();
    SentOne(EncodedGreeting(VERSION, [NOAUTH]), old(client.room));
    DeliverWhole(client, server);
    var greeting := ClientGreeting(server);
    ok := ServersChoice(server);

    SentOne([VERSION, NOAUTH], old(server.room));
    DeliverCut(server, client, cut);
    ChoiceTaken(client.incoming);
    var problem := ReadChoice(client);

    ok := SendRequest(client, host, port, parseIP);
    RequestRead(host, port, parseIP);
    SentOne(RequestBytes(host, port, parseIP), old(client.room) - 1);
    DeliverWhole(client, server);
    decoded := ClientConnectionRequest(server);
  }

  lemma SentOne(message: seq<Byte>, room: nat)
    requires message != [] && room > 0
    ensures Sending([], message, room) == [message] && Less(room) == room - 1
    ensures Proper([message]) && Flat([message]) == message
  {
  }

  // The server's answer, and after it what the destination sends.
  method Conclude(client: Conn, server: Conn, d: Dispatcher, address: string, resolver: Resolver,
                  dial: ServerResponse.Dialling, payload: seq<Byte>, cut: Cutting) returns (outcome: Outcome)
    requires client != server && server.room >= 2 && d.Valid() && Faithful(cut)
    requires client.incoming == server.outgoing == []
    modifies client`incoming, server`outgoing, server`room, server`closed, d`lbIndex, d.objects
    ensures d.Valid() && d.Abs() == Answered(old(d.Abs()), d.base, FamiliesOf(address, resolver), dial)
    ensures CursorOk(old(d.lbIndex), |d.lbList|)
    ensures var links := old(Views(d.lbList));
            Fitting(links, address, resolver, LinkFor(links, old(d.lbIndex), FamiliesOf(address, resolver)))
    ensures var served := Serves(old(Views(d.lbList)), old(d.lbIndex), FamiliesOf(address, resolver), dial);
            && outcome == (if served then Established else Refused(NETWORK_UNREACHABLE))
            && (served ==> Flat(client.incoming) == payload)
            && server.closed == if served then old(server.closed) else true
  {
    hide *;
    var served := AnswerRequest(d, server, address, resolver, dial);
    ghost var status := if served then SUCCESS else NETWORK_UNREACHABLE;
    ghost var after := if served then payload else [];
    SentOne(Reply(status), old(server.room));
    if served && payload != [] {
      Two(Reply(status), payload, server.room);
      var _ := server.Write(payload);
    }
    assert Flat(server.outgoing) == Reply(status) + after;
    DeliverCut(server, client, cut);
    ReplyRead(status, after);
    RefusalIsNoSuccess();
    FlatDropOf(client.incoming, Reply(status), after);
    outcome := ReadReply(client);
  }

  /** The composition: for every host and port within the client's checks, the server
      decodes exactly the client's destination; the client succeeds exactly when the
      scheduler finds a link for that destination and its dial succeeds, which the state
      records; and then nothing of the handshake is left on either stream. */
  method Session(client: Conn, server: Conn, d: Dispatcher, host: seq<Byte>, port: nat, parseIP: ParseIP,
                 ipv6: seq<Byte> -> string, resolver: Resolver, dial: ServerResponse.Dialling,
                 payload: seq<Byte>, cut: Cutting)
    returns (decoded: Option<Destination>, outcome: Outcome)
    requires client != server && client.room >= 2 && server.room >= 3 && d.Valid()
    requires client.incoming == client.outgoing == server.incoming == server.outgoing == []
    requires Sound(parseIP) && InRange(host, port) && Faithful(cut)
    modifies client, server, d`lbIndex, d.objects
    ensures Destination(HostOf(host, parseIP), port).Fits()
    ensures decoded == Some(Destination(HostOf(host, parseIP), port)) && server.incoming == []
    ensures CursorOk(old(d.lbIndex), |d.lbList|) && d.Valid()
    ensures var address := Printed(Destination(HostOf(host, parseIP), port), ipv6);
            var served := Serves(old(Views(d.lbList)), old(d.lbIndex), FamiliesOf(address, resolver), dial);
            && d.Abs() == Answered(old(d.Abs()), d.base, FamiliesOf(address, resolver), dial)
            && Fitting(old(Views(d.lbList)), address, resolver,
                       LinkFor(old(Views(d.lbList)), old(d.lbIndex), FamiliesOf(address, resolver)))
            && outcome == (if served then Established else Refused(NETWORK_UNREACHABLE))
            && (served ==> Flat(client.incoming) == payload)
            && server.closed == if served then old(server.closed) else true
  {
    hide *;
    InRangeFits(host, port, parseIP);
    decoded := Exchange(client, server, host, port, parseIP, cut);
    outcome := Conclude(client, server, d, Printed(decoded.value, ipv6), resolver, dial, payload, cut);
  }

  /** The same from outside, for any status: run over everything they were ever sent, the
      original's two functions write exactly what the other one read, and end as above. */
  lemma EndsAgree(host: seq<Byte>, port: nat, parseIP: ParseIP, status: Byte, payload: seq<Byte>, cs: Deliveries,
                  r: Option<Destination>, left: Deliveries, written: Deliveries, room: nat)
    requires Sound(parseIP) && InRange(host, port) && room >= 2
    requires Proper(cs) && Flat(cs) == [VERSION, NOAUTH] + Reply(status) + payload
    requires Proper(Sent(host, port, parseIP, ChoiceProblem(Flat(cs)), room))
    requires Handled(r, Sent(host, port, parseIP, ChoiceProblem(Flat(cs)), room), left, [], written, room)
    ensures r == Some(Destination(HostOf(host, parseIP), port)) && Flat(left) == []
    ensures written == [[VERSION, NOAUTH]]
    ensures ClientOutcome(Flat(cs), room) == if status == SUCCESS then (Established, 12) else (Refused(status), 0)
    ensures Flat(Drop(cs, 12)) == payload
  {
    hide *;
    InRangeFits(host, port, parseIP);
    ClientSide(status, payload, room);
    SentBoth(host, port, parseIP, room);
    FlatDropOf(cs, [VERSION, NOAUTH] + Reply(status), payload);
    ServerSide(host, port, parseIP, r, left, written, room);
  }

  lemma ClientSide(status: Byte, payload: seq<Byte>, room: nat)
    requires room >= 2
    ensures var b := [VERSION, NOAUTH] + Reply(status) + payload;
            && ChoiceProblem(b) == None && |[VERSION, NOAUTH] + Reply(status)| == 12
            && ClientOutcome(b, room) == if status == SUCCESS then (Established, 12) else (Refused(status), 0)
  {
    hide ReplyOutcome, Reply;
    var b := [VERSION, NOAUTH] + Reply(status) + payload;
    ReplyRead(status, payload);
    assert b[2..] == Reply(status) + payload;
  }

  lemma SentBoth(host: seq<Byte>, port: nat, parseIP: ParseIP, room: nat)
    requires room >= 2
    ensures Sent(host, port, parseIP, None, room) ==
            [EncodedGreeting(VERSION, [NOAUTH]), RequestBytes(host, port, parseIP)]
  {
  }

  lemma ServerSide(host: seq<Byte>, port: nat, parseIP: ParseIP, r: Option<Destination>, left: Deliveries,
                   written: Deliveries, room: nat)
    requires Sound(parseIP) && InRange(host, port) && Destination(HostOf(host, parseIP), port).Fits() && room >= 2
    requires var cs := [EncodedGreeting(VERSION, [NOAUTH]), RequestBytes(host, port, parseIP)];
             Proper(cs) && Handled(r, cs, left, [], written, room)
    ensures r == Some(Destination(HostOf(host, parseIP), port)) && Flat(left) == []
    ensures written == [[VERSION, NOAUTH]]
  {
    hide Decide, RequestBytes, EncodedRequest, Reply, Flat;
    var request := RequestBytes(host, port, parseIP);
    var cs := [EncodedGreeting(VERSION, [NOAUTH]), request];
    GreetingThenMore(request);
    RequestRead(host, port, parseIP);
    FlatUnfolds([]);
  }

  // The greeting is read to its end, whatever follows it.
  lemma GreetingThenMore(request: seq<Byte>)
    requires request != []
    ensures var cs := [EncodedGreeting(VERSION, [NOAUTH]), request];
            Proper(cs) && GreetingLength(cs) == Some(3) && Drop(cs, 3) == [request]
  {
    var cs := [EncodedGreeting(VERSION, [NOAUTH]), request];
    assert cs[0] == [VERSION, 1, NOAUTH] && cs[1..] == [request];
    Two(cs[0], request, 1);
    assert Drop(cs, 2) == [[VERSION, 1, NOAUTH][2..]] + [request];
    assert Flat(cs)[1] == 1;
  }

  lemma InRangeFits(host: seq<Byte>, port: nat, parseIP: ParseIP)
    requires Sound(parseIP) && InRange(host, port)
    ensures Destination(HostOf(host, parseIP), port).Fits()
  {
  }

  lemma ChoiceTaken(pieces: Deliveries)
    requires Proper(pieces) && Flat(pieces) == [VERSION, NOAUTH]
    ensures ChoiceProblem(Flat(pieces)) == None && Drop(pieces, 2) == []
  {
    FlatDrop(pieces, 2);
    DropIsProper(pieces, 2);
    EmptyFlat(Drop(pieces, 2));
  }

  lemma EmptyFlat(cs: Deliveries)
    requires Proper(cs) && Flat(cs) == []
    ensures cs == []
  {
  }

  lemma FlatDropOf(pieces: Deliveries, reply: seq<Byte>, payload: seq<Byte>)
    requires Flat(pieces) == reply + payload
    ensures Flat(Drop(pieces, |reply|)) == payload
  {
    FlatDrop(pieces, |reply|);
  }
}
