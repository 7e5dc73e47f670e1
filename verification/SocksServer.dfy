/**
The server's side of the handshake as the original runs it: reads and writes on a
connection (dispatcher/socks.go). The methods are proved against the decisions of `Socks`.
*/
module SocksServer {
  import opened Links
  import opened Streams
  import opened Socks

  // The greeting's length, once its two fields are read whole. Its version and methods
  // are not looked at.
  ghost function GreetingLength(cs: Deliveries): (r: Option<nat>)
    requires Proper(cs)
    ensures r.Some? ==> 2 <= r.value <= |Flat(cs)|
  {
    if !Plain(cs, 0, 2) then None
    else
      PlainIsThere(cs, 0, 2);
      var n: nat := Flat(cs)[1] as nat;
      if !Plain(cs, 2, n) then None
      else
        PlainIsThere(cs, 2, n);
        Some(2 + n)
  }

  method ClientGreeting(conn: Conn) returns (r: Option<(Byte, seq<Byte>)>)
    requires conn.Valid()
    modifies conn`incoming
    ensures conn.Valid()
    ensures match GreetingLength(old(conn.incoming))
            case None => r == None
            case Some(used) =>
              && r.Some? && |r.value.1| <= 255
              && EncodedGreeting(r.value.0, r.value.1) == Flat(old(conn.incoming))[..used]
              && conn.incoming == Drop(old(conn.incoming), used)
  {
    hide Flat, Drop, Whole;
    ghost var cs := conn.incoming;
    AtStart(cs);
    var buf := conn.Read(2);
    if buf.None? || |buf.value| != 2 {
      return None;
    }
    var socksVersion, numAuthMethods := buf.value[0], buf.value[1];
    FieldAt(cs, 2, numAuthMethods as nat);
    var authMethods := conn.Read(numAuthMethods as nat);
    if authMethods.None? || |authMethods.value| != numAuthMethods as nat {
      return None;
    }
    r := Some((socksVersion, authMethods.value));
    assert Flat(cs)[..2] + Flat(cs)[2..][..numAuthMethods] == Flat(cs)[..2 + numAuthMethods as nat];
  }

  lemma AtStart(cs: Deliveries)
    requires Proper(cs)
    ensures forall n: nat :: Plain(cs, 0, n) <==> Whole(cs, n)
  {
  }

  // The next field of n bytes, a bytes into the stream.
  lemma FieldAt(cs: Deliveries, a: nat, n: nat)
    requires Proper(cs) && a <= |Flat(cs)|
    ensures Proper(Drop(cs, a)) && Flat(Drop(cs, a)) == Flat(cs)[a..]
    ensures Plain(cs, a, n) <==> Whole(Drop(cs, a), n)
    ensures a + n <= |Flat(cs)| ==> Drop(Drop(cs, a), n) == Drop(cs, a + n)
    ensures Plain(cs, a, n) ==> a + n <= |Flat(cs)|
  {
    DropIsProper(cs, a);
    FlatDrop(cs, a);
    if a + n <= |Flat(cs)| {
      DropDrop(cs, a, n);
    }
    if Plain(cs, a, n) {
      PlainIsThere(cs, a, n);
    }
  }

  method ServersChoice(conn: Conn) returns (ok: bool)
    modifies conn`outgoing, conn`room
    ensures ok == (old(conn.room) > 0)
    ensures conn.outgoing == Sending(old(conn.outgoing), [VERSION, NOAUTH], old(conn.room))
    ensures conn.room == Less(old(conn.room))
  {
    ok := conn.Write([VERSION, NOAUTH]);
  }

  // Every refusal replies and hangs up; whether the reply gets through is not looked at.
  method TurnAway(conn: Conn, status: Byte)
    modifies conn`outgoing, conn`room, conn`closed
    ensures conn.closed
    ensures conn.outgoing == Sending(old(conn.outgoing), Reply(status), old(conn.room))
    ensures conn.room == Less(old(conn.room))
  {
    var _ := conn.Write(Reply(status));
    conn.Close();
  }

  // The next n bytes by a single read, at position a of the request.
  method NextField(conn: Conn, ghost cs: Deliveries, ghost a: nat, n: nat) returns (r: Option<seq<Byte>>)
    requires Proper(cs) && a <= |Flat(cs)| && conn.incoming == Drop(cs, a)
    modifies conn`incoming
    ensures conn.Valid()
    ensures r.Some? <==> Plain(cs, a, n)
    ensures r.Some? ==>
              a + n <= |Flat(cs)| && r.value == Flat(cs)[a..a + n] && |r.value| == n && conn.incoming == Drop(cs, a + n)
  {
    hide Flat, Drop, Whole, Plain;
    FieldAt(cs, a, n);
    r := conn.Read(n);
    if r.Some? && |r.value| != n {
      r := None;
    }
    assert r.Some? ==> Flat(cs)[a..][..n] == Flat(cs)[a..a + n];
  }

  method NextInFull(conn: Conn, ghost cs: Deliveries, ghost a: nat, n: nat) returns (r: Option<seq<Byte>>)
    requires Proper(cs) && a <= |Flat(cs)| && conn.incoming == Drop(cs, a)
    modifies conn`incoming
    ensures conn.Valid()
    ensures r.Some? <==> a + n <= |Flat(cs)|
    ensures r.Some? ==> r.value == Flat(cs)[a..a + n] && |r.value| == n && conn.incoming == Drop(cs, a + n)
  {
    hide Flat, Drop, Whole, Plain;
    FieldAt(cs, a, n);
    r := conn.ReadFull(n);
    assert r.Some? ==> Flat(cs)[a..][..n] == Flat(cs)[a..a + n];
  }

  method ReadV4(conn: Conn, ghost cs: Deliveries) returns (r: Option<Destination>)
    requires Proper(cs) && |Flat(cs)| >= 4 && conn.incoming == Drop(cs, 4)
    modifies conn`incoming
    ensures conn.Valid() && ReadAs(r, conn.incoming, cs, DecideV4(cs))
  {
    hide Flat, Drop, Whole, Plain;
    var ipv4Address := NextField(conn, cs, 4, 4);
    if ipv4Address.None? {
      return None;
    }
    var port := NextField(conn, cs, 8, 2);
    if port.None? {
      return None;
    }
    return Some(Destination(V4(ipv4Address.value), Number(port.value)));
  }

  method ReadName(conn: Conn, ghost cs: Deliveries) returns (r: Option<Destination>)
    requires Proper(cs) && |Flat(cs)| >= 4 && conn.incoming == Drop(cs, 4)
    modifies conn`incoming
    ensures conn.Valid() && ReadAs(r, conn.incoming, cs, DecideName(cs))
  {
    hide Flat, Drop, Whole, Plain;
    var domainNameLength := NextField(conn, cs, 4, 1);
    if domainNameLength.None? {
      return None;
    }
    var n: nat := domainNameLength.value[0] as nat;
    var domainName := NextField(conn, cs, 5, n);
    if domainName.None? {
      return None;
    }
    var port := NextField(conn, cs, 5 + n, 2);
    if port.None? {
      return None;
    }
    return Some(Destination(Name(domainName.value), Number(port.value)));
  }

  method ReadV6(conn: Conn, ghost cs: Deliveries) returns (r: Option<Destination>)
    requires Proper(cs) && |Flat(cs)| >= 4 && conn.incoming == Drop(cs, 4)
    modifies conn`incoming
    ensures conn.Valid() && ReadAs(r, conn.incoming, cs, DecideV6(cs))
  {
    hide Flat, Drop, Whole, Plain;
    var ipv6Address := NextInFull(conn, cs, 4, 16);
    if ipv6Address.None? {
      return None;
    }
    var port := NextInFull(conn, cs, 20, 2);
    if port.None? {
      return None;
    }
    return Some(Destination(V6(ipv6Address.value), Number(port.value)));
  }

  // The address and port were read as decided, and no byte more.
  ghost predicate ReadAs(r: Option<Destination>, incoming: Deliveries, cs: Deliveries, decision: Decision) {
    match decision
    case Accept(d, used) => r == Some(d) && incoming == Drop(cs, used)
    case Refuse(status) => r == None && status == SERVER_FAILURE
  }

  /** Reads the request: the destination decided on and not a byte more, or a refusal with
      the reply for it. */
  method ClientConnectionRequest(conn: Conn) returns (r: Option<Destination>)
    requires conn.Valid()
    modifies conn`incoming, conn`outgoing, conn`room, conn`closed
    ensures conn.Valid()
    ensures match Decide(old(conn.incoming))
            case Accept(d, used) =>
              && r == Some(d) && conn.incoming == Drop(old(conn.incoming), used)
              && conn.outgoing == old(conn.outgoing) && conn.room == old(conn.room) && conn.closed == old(conn.closed)
            case Refuse(status) =>
              && r == None && conn.closed && conn.room == Less(old(conn.room))
              && conn.outgoing == Sending(old(conn.outgoing), Reply(status), old(conn.room))
  {
    hide Flat, Whole, Plain, DecideV4, DecideName, DecideV6, Reply;
    ghost var cs := conn.incoming;
    var header := NextField(conn, cs, 0, 4);
    if header.None? {
      TurnAway(conn, SERVER_FAILURE);
      return None;
    }
    var socksVersion, cmdCode, addressType := header.value[0], header.value[1], header.value[3];
    if socksVersion != VERSION {
      TurnAway(conn, SERVER_FAILURE);
      return None;
    }
    if cmdCode != CONNECT {
      TurnAway(conn, COMMAND_NOT_SUPPORTED);
      return None;
    }
    if addressType == ATYP_IPV4 {
      r := ReadV4(conn, cs);
    } else if addressType == ATYP_DOMAIN {
      r := ReadName(conn, cs);
    } else if addressType == ATYP_IPV6 {
      r := ReadV6(conn, cs);
    } else {
      TurnAway(conn, ADDRTYPE_NOT_SUPPORTED);
      return None;
    }
    if r.None? {
      TurnAway(conn, SERVER_FAILURE);
    }
  }

  /** The whole handshake up to the destination. A connection that ends without one is
      hung up only if it got as far as its request: after a bad greeting, or a choice that
      could not be sent, it is left open. */
  method HandleSocksConnection(conn: Conn) returns (r: Option<Destination>)
    requires conn.Valid()
    modifies conn`incoming, conn`outgoing, conn`room, conn`closed
    ensures conn.Valid()
    ensures Handled(r, old(conn.incoming), conn.incoming, old(conn.outgoing), conn.outgoing, old(conn.room))
    ensures r.Some? ==> conn.closed == old(conn.closed)
    ensures r.None? ==>
              (conn.closed <==> old(conn.closed) || (old(conn.room) > 0 && GreetingLength(old(conn.incoming)).Some?))
  {
    hide Flat, Whole, Plain, Drop, Decide, Reply, GreetingLength;
    ghost var cs := conn.incoming;
    var greeting := ClientGreeting(conn);
    if greeting.None? {
      return None;
    }
    FieldAt(cs, GreetingLength(cs).value, 0);
    var ok := ServersChoice(conn);
    if !ok {
      return None;
    }
    r := ClientConnectionRequest(conn);
  }

  // The result, what is left of the stream and what was written, by what was delivered.
  ghost predicate Handled(r: Option<Destination>, cs: Deliveries, left: Deliveries,
                          before: Deliveries, written: Deliveries, room: nat)
    requires Proper(cs)
  {
    match GreetingLength(cs)
    case None => r == None && written == before
    case Some(g) =>
      DropIsProper(cs, g);
      if room == 0 then r == None && written == before
      else
        match Decide(Drop(cs, g))
        case Accept(d, used) =>
          r == Some(d) && left == Drop(Drop(cs, g), used) && written == before + [[VERSION, NOAUTH]]
        case Refuse(status) =>
          r == None && written == Sending(before + [[VERSION, NOAUTH]], Reply(status), room - 1)
  }

  // No single read of the handshake, greeting or request, is cut.
  ghost predicate Uncut(cs: Deliveries, methods: nat, h: Host) {
    && !CutInside(cs, 0, 2) && !CutInside(cs, 2, 2 + methods)
    && NoFieldCut(Drop(cs, 2 + methods), h)
  }

  /** Segmentation safety of the whole handshake: however a greeting, a request and what
      follows are delivered, the server ends with that destination, exactly what follows
      left to read, or with none; and it gets the destination exactly when it can write
      and no delivery ends strictly inside a field read by a single read. */
  lemma HandshakeSegmented(cs: Deliveries, version: Byte, methods: seq<Byte>, d: Destination, reserved: Byte,
                           rest: seq<Byte>, r: Option<Destination>, left: Deliveries,
                           before: Deliveries, written: Deliveries, room: nat)
    requires Proper(cs) && |methods| <= 255 && d.Fits()
    requires Flat(cs) == EncodedGreeting(version, methods) + EncodedRequest(d, reserved) + rest
    requires Handled(r, cs, left, before, written, room)
    ensures r == if room > 0 && Uncut(cs, |methods|, d.host) then Some(d) else None
    ensures r.Some? ==> Flat(left) == rest
  {
    hide Flat, Drop, Whole, CutInside, Decide, NoFieldCut, EncodedRequest, Plain, EncodedHost;
    var g, request := 2 + |methods|, EncodedRequest(d, reserved);
    GreetingSegmented(cs, version, methods, request + rest);
    DropIsProper(cs, g);
    FlatDrop(cs, g);
    assert Flat(cs)[g..] == request + rest;
    SegmentationSafety(Drop(cs, g), d, reserved, rest);
    FlatDrop(Drop(cs, g), |request|);
    assert (request + rest)[|request|..] == rest;
  }

  lemma GreetingSegmented(cs: Deliveries, version: Byte, methods: seq<Byte>, rest: seq<Byte>)
    requires Proper(cs) && |methods| <= 255 && Flat(cs) == EncodedGreeting(version, methods) + rest
    ensures GreetingLength(cs) ==
            if CutInside(cs, 0, 2) || CutInside(cs, 2, 2 + |methods|) then None else Some(2 + |methods|)
  {
    hide Flat, Drop, Whole;
    WholeIffNoCut(cs, 0, 2);
    WholeIffNoCut(cs, 2, |methods|);
  }
}
