/**
The server's side of the SOCKS5 handshake (dispatcher/socks.go), against the messages of
RFC 1928, sections 3 and 4. A destination is kept structured; the original prints it.
*/
module Socks {
  import opened Streams

  const VERSION: Byte := 5
  const NOAUTH: Byte := 0
  const CONNECT: Byte := 1
  const ATYP_IPV4: Byte := 1
  const ATYP_DOMAIN: Byte := 3
  const ATYP_IPV6: Byte := 4
  const SUCCESS: Byte := 0
  const SERVER_FAILURE: Byte := 1
  const NETWORK_UNREACHABLE: Byte := 3
  const COMMAND_NOT_SUPPORTED: Byte := 7
  const ADDRTYPE_NOT_SUPPORTED: Byte := 8

  datatype Host = V4(octets: seq<Byte>) | Name(name: seq<Byte>) | V6(octets: seq<Byte>)
  {
    // What fits the address forms of the protocol.
    predicate Fits() {
      match this
      case V4(octets) => |octets| == 4
      case Name(name) => |name| <= 255
      case V6(octets) => |octets| == 16
    }
  }

  datatype Destination = Destination(host: Host, port: nat)
  {
    predicate Fits() {
      host.Fits() && port < 0x1_0000
    }
  }

  // ----- the messages

  function BigEndian(n: nat): (r: seq<Byte>)
    requires n < 0x1_0000
    ensures |r| == 2
  {
    [n / 256, n % 256]
  }

  function Number(b: seq<Byte>): (n: nat)
    requires |b| == 2
    ensures n < 0x1_0000
  {
    b[0] as nat * 256 + b[1] as nat
  }

  lemma BigEndianInverse(n: nat, b: seq<Byte>)
    ensures n < 0x1_0000 ==> Number(BigEndian(n)) == n
    ensures |b| == 2 ==> BigEndian(Number(b)) == b
  {
  }

  function EncodedHost(h: Host): (r: seq<Byte>)
    requires h.Fits()
    ensures r != []
  {
    match h
    case V4(octets) => [ATYP_IPV4] + octets
    case Name(name) => [ATYP_DOMAIN, |name|] + name
    case V6(octets) => [ATYP_IPV6] + octets
  }

  // Version, command, reserved byte, address, port.
  function EncodedRequest(d: Destination, reserved: Byte): (r: seq<Byte>)
    requires d.Fits()
    ensures |r| >= 4
  {
    [VERSION, CONNECT, reserved] + EncodedHost(d.host) + BigEndian(d.port)
  }

  function EncodedGreeting(version: Byte, methods: seq<Byte>): (r: seq<Byte>)
    requires |methods| <= 255
    ensures r != []
  {
    [version, |methods|] + methods
  }

  // A reply with the address the original always gives, 0.0.0.0:0.
  function Reply(status: Byte): (r: seq<Byte>)
    ensures |r| == 10
  {
    [VERSION, status, 0, ATYP_IPV4, 0, 0, 0, 0, 0, 0]
  }

  /** The fixed messages byte by byte: greeting, choice, and a reply with any status. */
  lemma MessagesOnTheWire(status: Byte)
    ensures EncodedGreeting(VERSION, [NOAUTH]) == [5, 1, 0] && [VERSION, NOAUTH] == [5, 0]
    ensures Reply(status) == [5, status, 0, 1, 0, 0, 0, 0, 0, 0]
    ensures SUCCESS == 0 && SERVER_FAILURE == 1 && NETWORK_UNREACHABLE == 3
    ensures COMMAND_NOT_SUPPORTED == 7 && ADDRTYPE_NOT_SUPPORTED == 8
  {
  }

  /** A request byte by byte, as in section 4 of RFC 1928: 5, 1, the reserved byte, the
      address type with the address, and the port with its high byte first. */
  lemma RequestOnTheWire(d: Destination, reserved: Byte)
    requires d.Fits()
    ensures var r := EncodedRequest(d, reserved);
            var n := |r|;
            && r[..3] == [5, 1, reserved]
            && (match d.host
                case V4(octets) => n == 10 && r[3] == 1 && r[4..8] == octets
                case Name(name) => n == 7 + |name| && r[3] == 3 && r[4] == |name| && r[5..n - 2] == name
                case V6(octets) => n == 22 && r[3] == 4 && r[4..20] == octets)
            && d.port == 256 * r[n - 2] as int + r[n - 1] as int
  {
    var r := EncodedRequest(d, reserved);
    assert r[..3] == [5, 1, reserved];
  }

  // ----- what the server makes of a stream

  datatype Decision = Accept(destination: Destination, used: nat) | Refuse(status: Byte)

  // A field of n bytes at position a that a single read gets whole.
  ghost predicate Plain(cs: Deliveries, a: nat, n: nat) {
    a <= |Flat(cs)| && Whole(Drop(cs, a), n)
  }

  lemma PlainIsThere(cs: Deliveries, a: nat, n: nat)
    requires Proper(cs) && Plain(cs, a, n)
    ensures a + n <= |Flat(cs)|
  {
    WholeIffNoCut(cs, a, n);
  }

  // The request, from the position the stream is at.
  ghost function Decide(cs: Deliveries): Decision
    requires Proper(cs)
  {
    var b := Flat(cs);
    if !Plain(cs, 0, 4) then Refuse(SERVER_FAILURE)
    else
      PlainIsThere(cs, 0, 4);
      if b[0] != VERSION then Refuse(SERVER_FAILURE)
      else if b[1] != CONNECT then Refuse(COMMAND_NOT_SUPPORTED)
      else if b[3] == ATYP_IPV4 then DecideV4(cs)
      else if b[3] == ATYP_DOMAIN then DecideName(cs)
      else if b[3] == ATYP_IPV6 then DecideV6(cs)
      else Refuse(ADDRTYPE_NOT_SUPPORTED)
  }

  ghost function DecideV4(cs: Deliveries): Decision
    requires Proper(cs)
  {
    var b := Flat(cs);
    if !(Plain(cs, 4, 4) && Plain(cs, 8, 2)) then Refuse(SERVER_FAILURE)
    else
      PlainIsThere(cs, 8, 2);
      Accept(Destination(V4(b[4..8]), Number(b[8..10])), 10)
  }

  ghost function DecideName(cs: Deliveries): Decision
    requires Proper(cs)
  {
    var b := Flat(cs);
    if !Plain(cs, 4, 1) then Refuse(SERVER_FAILURE)
    else
      PlainIsThere(cs, 4, 1);
      var n: nat := b[4] as nat;
      if !(Plain(cs, 5, n) && Plain(cs, 5 + n, 2)) then Refuse(SERVER_FAILURE)
      else
        PlainIsThere(cs, 5 + n, 2);
        Accept(Destination(Name(b[5..5 + n]), Number(b[5 + n..7 + n])), 7 + n)
  }

  ghost function DecideV6(cs: Deliveries): Decision
    requires Proper(cs)
  {
    var b := Flat(cs);
    if |b| < 22 then Refuse(SERVER_FAILURE)
    else Accept(Destination(V6(b[4..20]), Number(b[20..22])), 22)
  }

  // Where the single reads of a request start and end; the rest is read in full.
  function PlainFields(h: Host): seq<(nat, nat)> {
    match h
    case V4(_) => [(0, 4), (4, 8), (8, 10)]
    case Name(name) => [(0, 4), (4, 5), (5, 5 + |name|), (5 + |name|, 7 + |name|)]
    case V6(_) => [(0, 4)]
  }

  ghost predicate NoFieldCut(cs: Deliveries, h: Host) {
    forall k :: 0 <= k < |PlainFields(h)| ==> !CutInside(cs, PlainFields(h)[k].0, PlainFields(h)[k].1)
  }

  // ----- each form of address

  lemma NameAccepted(cs: Deliveries)
    requires Proper(cs) && Plain(cs, 0, 4) && DecideName(cs).Accept? && Flat(cs)[3] == ATYP_DOMAIN
    requires |Flat(cs)| >= 4 && Flat(cs)[..2] == [VERSION, CONNECT]
    ensures EncodesPrefix(cs, DecideName(cs))
  {
    hide Flat, Plain, Drop, Whole;
    PlainIsThere(cs, 4, 1);
    var b := Flat(cs);
    var n: nat := b[4] as nat;
    PlainIsThere(cs, 5 + n, 2);
    BigEndianInverse(0, b[5 + n..7 + n]);
    assert b[..7 + n] == b[..5] + b[5..5 + n] + b[5 + n..7 + n];
  }

  lemma V4Accepted(cs: Deliveries)
    requires Proper(cs) && Plain(cs, 0, 4) && DecideV4(cs).Accept? && |Flat(cs)| >= 4
    requires Flat(cs)[3] == ATYP_IPV4 && Flat(cs)[..2] == [VERSION, CONNECT]
    ensures EncodesPrefix(cs, DecideV4(cs))
  {
    hide Flat, Plain, Drop, Whole;
    var b := Flat(cs);
    PlainIsThere(cs, 8, 2);
    BigEndianInverse(0, b[8..10]);
    assert b[..10] == b[..4] + b[4..8] + b[8..10];
  }

  lemma V6Accepted(cs: Deliveries)
    requires Proper(cs) && DecideV6(cs).Accept? && |Flat(cs)| >= 4
    requires Flat(cs)[3] == ATYP_IPV6 && Flat(cs)[..2] == [VERSION, CONNECT]
    ensures EncodesPrefix(cs, DecideV6(cs))
  {
    hide Flat;
    var b := Flat(cs);
    BigEndianInverse(0, b[20..22]);
    assert b[..22] == b[..4] + b[4..20] + b[20..22];
  }

  // The decision consumed exactly an encoding of its destination; only the reserved byte
  // is free.
  ghost predicate EncodesPrefix(cs: Deliveries, r: Decision)
    requires r.Accept?
  {
    var (d, b) := (r.destination, Flat(cs));
    d.Fits() && 4 <= r.used <= |b| && b[..r.used] == EncodedRequest(d, b[2])
  }

  /** What is accepted is an encoding of the destination, and exactly that is consumed. */
  lemma AcceptedIsEncoded(cs: Deliveries)
    requires Proper(cs) && Decide(cs).Accept?
    ensures EncodesPrefix(cs, Decide(cs))
  {
    hide Flat, Plain, DecideName, DecideV4, DecideV6, EncodesPrefix;
    PlainIsThere(cs, 0, 4);
    var b := Flat(cs);
    assert b[..2] == [b[0], b[1]];
    if b[3] == ATYP_IPV4 {
      V4Accepted(cs);
    } else if b[3] == ATYP_DOMAIN {
      NameAccepted(cs);
    } else {
      V6Accepted(cs);
    }
  }

  lemma V4Segmented(cs: Deliveries, d: Destination, reserved: Byte, rest: seq<Byte>)
    requires Proper(cs) && d.Fits() && d.host.V4? && Flat(cs) == EncodedRequest(d, reserved) + rest
    ensures DecideV4(cs) ==
            if CutInside(cs, 4, 8) || CutInside(cs, 8, 10) then Refuse(SERVER_FAILURE) else Accept(d, 10)
  {
    hide Flat, Drop, Whole, CutInside;
    var b := Flat(cs);
    BigEndianInverse(d.port, []);
    WholeIffNoCut(cs, 4, 4);
    WholeIffNoCut(cs, 8, 2);
    assert b[4..8] == d.host.octets && b[8..10] == BigEndian(d.port);
  }

  lemma NameSegmented(cs: Deliveries, d: Destination, reserved: Byte, rest: seq<Byte>)
    requires Proper(cs) && d.Fits() && d.host.Name? && Flat(cs) == EncodedRequest(d, reserved) + rest
    ensures var n := |d.host.name|;
            DecideName(cs) ==
            if CutInside(cs, 5, 5 + n) || CutInside(cs, 5 + n, 7 + n) then Refuse(SERVER_FAILURE) else Accept(d, 7 + n)
  {
    hide Flat, Drop, Whole;
    var n, b := |d.host.name|, Flat(cs);
    BigEndianInverse(d.port, []);
    WholeIffNoCut(cs, 4, 1);
    WholeIffNoCut(cs, 5, n);
    WholeIffNoCut(cs, 5 + n, 2);
    assert b[5..5 + n] == d.host.name && b[5 + n..7 + n] == BigEndian(d.port);
  }

  lemma V6Segmented(cs: Deliveries, d: Destination, reserved: Byte, rest: seq<Byte>)
    requires Proper(cs) && d.Fits() && d.host.V6? && Flat(cs) == EncodedRequest(d, reserved) + rest
    ensures DecideV6(cs) == Accept(d, 22)
  {
    hide Flat;
    var b := Flat(cs);
    BigEndianInverse(d.port, []);
    assert b[4..20] == d.host.octets && b[20..22] == BigEndian(d.port);
  }

  lemma NoFieldCutMeans(cs: Deliveries, h: Host)
    ensures NoFieldCut(cs, h) <==>
              && !CutInside(cs, 0, 4)
              && (h.V4? ==> !CutInside(cs, 4, 8) && !CutInside(cs, 8, 10))
              && (h.Name? ==> !CutInside(cs, 5, 5 + |h.name|) && !CutInside(cs, 5 + |h.name|, 7 + |h.name|))
  {
    var fields := PlainFields(h);
    assert fields[0] == (0, 4);
    if h.V4? {
      assert fields[1] == (4, 8) && fields[2] == (8, 10);
    } else if h.Name? {
      assert fields[2] == (5, 5 + |h.name|) && fields[3] == (5 + |h.name|, 7 + |h.name|);
    }
  }

  /** Segmentation safety: however a request and what follows it are delivered, the server
      refuses it or decodes that very destination, leaving what follows; and it accepts
      exactly when no delivery ends strictly inside a field it reads with a single read. */
  lemma SegmentationSafety(cs: Deliveries, d: Destination, reserved: Byte, rest: seq<Byte>)
    requires Proper(cs) && d.Fits() && Flat(cs) == EncodedRequest(d, reserved) + rest
    ensures Decide(cs) ==
            if NoFieldCut(cs, d.host) then Accept(d, |EncodedRequest(d, reserved)|) else Refuse(SERVER_FAILURE)
  {
    hide Flat, Drop, Whole, CutInside, DecideName, DecideV4, DecideV6, NoFieldCut;
    WholeIffNoCut(cs, 0, 4);
    NoFieldCutMeans(cs, d.host);
    match d.host
    case V4(_) => V4Segmented(cs, d, reserved, rest);
    case Name(_) => NameSegmented(cs, d, reserved, rest);
    case V6(_) => V6Segmented(cs, d, reserved, rest);
  }

  /** Which refusal: status 1 if the header does not come whole or has another version than
      5, 7 for another command than 1, 8 for another address type than 1, 3 and 4, each
      only if nothing before it applies, and otherwise only status 1 is left. */
  lemma RefusalByHeader(cs: Deliveries)
    requires Proper(cs)
    ensures var b, r := Flat(cs), Decide(cs);
            if |b| < 4 || CutInside(cs, 0, 4) then r == Refuse(1)
            else if b[0] != 5 then r == Refuse(1)
            else if b[1] != 1 then r == Refuse(7)
            else if b[3] != 1 && b[3] != 3 && b[3] != 4 then r == Refuse(8)
            else r.Accept? || r == Refuse(1)
  {
    hide Flat, Drop, Whole, CutInside;
    if Plain(cs, 0, 4) {
      PlainIsThere(cs, 0, 4);
    }
    if |Flat(cs)| >= 4 {
      WholeIffNoCut(cs, 0, 4);
    }
  }
}
