/**
Load balancers from their text form (dispatcher/dispatcher.go:81-152).
*/
module Parsing {
  import opened Links
  import opened Texts

  // The library's view of a host as an IP literal (Some(true) for IPv6), and the machine's
  // interfaces by address ("" for none).
  datatype Network = Network(parseIP: string -> Option<bool>, interfaceOf: string -> string)

  datatype ParseError =
    | NoLoadBalancers
    | InvalidAddressSpecification(text: string)
    | InvalidPort(text: string)
    | InvalidAddress(text: string)
    | InvalidRatio(text: string)
    | NoInterface(text: string)

  datatype Result<T> = Ok(value: T) | Err(error: ParseError)

  predicate IsIPv6Address(address: string, net: Network) {
    var host := match SplitHostPort(address) case Some((h, _)) => h case None => address;
    net.parseIP(host) == Some(true)
  }

  function NewLink(address: string, iface: string, ratio: int, net: Network): (l: Link)
    ensures ratio >= 1 ==> l.Fresh()
  {
    Link(address, iface, ratio, 0, IsIPv6Address(address, net), 0, 0, 0, "", false, "", 0, false)
  }

  // The host and port of one entry.
  function Endpoint(text: string, tunnel: bool, net: Network): Result<(string, nat)> {
    if tunnel then
      match SplitHostPort(text)
      case None => Err(InvalidAddressSpecification(text))
      case Some((host, portText)) =>
        match Atoi(portText)
        case None => Err(InvalidPort(text))
        case Some(port) => if 0 < port <= 65535 then Ok((host, port)) else Err(InvalidPort(text))
    else if net.parseIP(text).None? then Err(InvalidAddress(text))
    else Ok((text, 0))
  }

  // The contention ratio of one entry; only the part after the first @ counts.
  function Ratio(parts: seq<string>): Option<int> {
    if |parts| <= 1 then Some(1)
    else
      match Atoi(parts[1])
      case None => None
      case Some(ratio) => if ratio >= 1 then Some(ratio) else None
  }

  function ParseEntry(a: string, tunnel: bool, net: Network): Result<Link> {
    var parts := Split(a, '@');
    match Endpoint(parts[0], tunnel, net)
    case Err(e) => Err(e)
    case Ok((host, port)) =>
      match Ratio(parts)
      case None => Err(InvalidRatio(host))
      case Some(ratio) =>
        var iface := if tunnel then "" else net.interfaceOf(host);
        if !tunnel && iface == "" then Err(NoInterface(host))
        else Ok(NewLink(JoinHostPort(host, Itoa(port)), iface, ratio, net))
  }

  /** Parses a list: every entry's link in order, or the first entry's error. What it
      returns has no history and a ratio of at least 1. */
  method ParseLoadBalancers(args: seq<string>, tunnel: bool, net: Network) returns (r: Result<seq<Link>>)
    ensures args == [] ==> r == Err(NoLoadBalancers)
    ensures r.Ok? ==>
              && |r.value| == |args| > 0
              && (forall k :: 0 <= k < |args| ==> ParseEntry(args[k], tunnel, net) == Ok(r.value[k]))
              && (forall k :: 0 <= k < |args| ==> r.value[k].Fresh())
    ensures r.Err? && args != [] ==>
              exists k :: 0 <= k < |args| && ParseEntry(args[k], tunnel, net) == Err(r.error)
                          && forall j :: 0 <= j < k ==> ParseEntry(args[j], tunnel, net).Ok?
  {
    hide Split, SplitHostPort, Atoi, JoinHostPort, Itoa, IsIPv6Address;
    if |args| == 0 {
      return Err(NoLoadBalancers);
    }
    var lbList: seq<Link> := [];
    for idx := 0 to |args|
      invariant |lbList| == idx
      invariant forall k :: 0 <= k < idx ==> ParseEntry(args[k], tunnel, net) == Ok(lbList[k])
      invariant forall k :: 0 <= k < idx ==> lbList[k].Fresh()
    {
      var splitted := Split(args[idx], '@');
      var iface := "";
      var host, port := splitted[0], 0;

      if tunnel {
        var hostPort := SplitHostPort(splitted[0]);
        if hostPort.None? {
          return Err(InvalidAddressSpecification(splitted[0]));
        }
        host := hostPort.value.0;
        var number := Atoi(hostPort.value.1);
        if number.None? || number.value <= 0 || number.value > 65535 {
          return Err(InvalidPort(splitted[0]));
        }
        port := number.value;
      }

      // A name is not supported outside tunnel mode: the address names a local interface.
      if !tunnel && net.parseIP(host).None? {
        return Err(InvalidAddress(host));
      }

      var ratio := 1;
      if |splitted| > 1 {
        var number := Atoi(splitted[1]);
        if number.None? || number.value <= 0 {
          return Err(InvalidRatio(host));
        }
        ratio := number.value;
      }

      if !tunnel {
        iface := net.interfaceOf(host);
        if iface == "" {
          return Err(NoInterface(host));
        }
      }

      var address := JoinHostPort(host, Itoa(port));
      lbList := lbList + [NewLink(address, iface, ratio, net)];
    }
    return Ok(lbList);
  }

  // ----- round trips

  // Texts the library accepts as IP literals have none of the separators used around them.
  ghost predicate PlainLiterals(net: Network) {
    forall text :: net.parseIP(text).Some? ==> Texts.Plain(text) && '@' !in text
  }

  // What follows the endpoint of an entry: nothing, or a ratio and possibly more of the same.
  function Suffix(ratio: Option<int>, more: string): string
    requires more == "" || (ratio.Some? && more[0] == '@')
  {
    if ratio.Some? then "@" + Itoa(ratio.value) + more else ""
  }

  ghost predicate AcceptableRatio(ratio: Option<int>) {
    ratio.Some? ==> 1 <= ratio.value < INT64_LIMIT
  }

  // Whatever the endpoint, the ratio is 1 unless one is given, and more is ignored.
  lemma SuffixRead(endpoint: string, ratio: Option<int>, more: string)
    requires '@' !in endpoint && (more == "" || (ratio.Some? && more[0] == '@'))
    ensures var parts := Split(endpoint + Suffix(ratio, more), '@');
            && parts[0] == endpoint
            && Ratio(parts) == if !AcceptableRatio(ratio) then None else if ratio.Some? then ratio else Some(1)
  {
    hide Split, Atoi, Itoa, Ratio;
    SplitFirst(endpoint, Suffix(ratio, more), '@');
    if ratio.Some? {
      var rest := Itoa(ratio.value) + more;
      assert Suffix(ratio, more)[1..] == rest;
      AtoiOfItoa(ratio.value);
      ItoaHasNo(ratio.value, '@');
      SplitFirst(Itoa(ratio.value), more, '@');
      RatioGiven([endpoint] + Split(rest, '@'), ratio.value);
    } else {
      NoRatioGiven(endpoint);
    }
  }

  lemma NoRatioGiven(endpoint: string)
    ensures Ratio([endpoint]) == Some(1)
  {
  }

  lemma RatioGiven(parts: seq<string>, ratio: int)
    requires |parts| > 1 && Atoi(parts[1]) == if -INT64_LIMIT <= ratio < INT64_LIMIT then Some(ratio) else None
    ensures Ratio(parts) == if 1 <= ratio < INT64_LIMIT then Some(ratio) else None
  {
    hide Atoi;
  }

  /** An entry for a local interface, written in any of its forms: refused if it is not an IP
      literal, if its ratio is not a positive 64-bit number, or if no interface has the address,
      in this order; otherwise the link has that address, port 0, and that ratio or 1. */
  lemma InterfaceEntryParses(ip: string, ratio: Option<int>, more: string, net: Network)
    requires PlainLiterals(net) && '@' !in ip && (more == "" || (ratio.Some? && more[0] == '@'))
    ensures var r := ParseEntry(ip + Suffix(ratio, more), false, net);
            if net.parseIP(ip).None? then r == Err(InvalidAddress(ip))
            else if !AcceptableRatio(ratio) then r == Err(InvalidRatio(ip))
            else if net.interfaceOf(ip) == "" then r == Err(NoInterface(ip))
            else
              && r.Ok? && r.value.Fresh() && r.value.iface == net.interfaceOf(ip)
              && r.value.ratio == (if ratio.Some? then ratio.value else 1)
              && SplitHostPort(r.value.address) == Some((ip, "0"))
              && (r.value.isIPv6 <==> net.parseIP(ip) == Some(true))
  {
    hide Split, SplitHostPort, JoinHostPort, Ratio, Suffix, AcceptableRatio;
    SuffixRead(ip, ratio, more);
    RatioIsPositive(Split(ip + Suffix(ratio, more), '@'));
    AcceptedRatio(ratio);
    if net.parseIP(ip).Some? {
      SplitOfJoin(ip, Itoa(0));
    }
  }

  lemma RatioIsPositive(parts: seq<string>)
    ensures Ratio(parts).Some? ==> Ratio(parts).value >= 1
  {
  }

  lemma AcceptedRatio(ratio: Option<int>)
    ensures ratio.None? ==> AcceptableRatio(ratio)
  {
  }

  /** An entry of tunnel mode, "host:port" with or without a ratio: refused if the port is
      not from 1 to 65535 or the ratio not a positive 64-bit number; otherwise the link
      goes to that host and port, without an interface, with that ratio or 1. */
  lemma TunnelEntryParses(host: string, port: int, ratio: Option<int>, more: string, net: Network)
    requires Texts.Plain(host) && '@' !in host && (more == "" || (ratio.Some? && more[0] == '@'))
    ensures var endpoint := JoinHostPort(host, Itoa(port));
            var r := ParseEntry(endpoint + Suffix(ratio, more), true, net);
            if !(1 <= port <= 65535) then r == Err(InvalidPort(endpoint))
            else if !AcceptableRatio(ratio) then r == Err(InvalidRatio(host))
            else
              && r.Ok? && r.value.Fresh() && r.value.iface == ""
              && r.value.ratio == (if ratio.Some? then ratio.value else 1)
              && SplitHostPort(r.value.address) == Some((host, Itoa(port)))
              && (r.value.isIPv6 <==> net.parseIP(host) == Some(true))
  {
    hide Split, SplitHostPort, Ratio, Suffix, AcceptableRatio, Atoi, Itoa;
    var endpoint := JoinHostPort(host, Itoa(port));
    ItoaHasNo(port, '@');
    ItoaHasNo(port, ':');
    ItoaHasNo(port, '[');
    ItoaHasNo(port, ']');
    AtoiOfItoa(port);
    SuffixRead(endpoint, ratio, more);
    RatioIsPositive(Split(endpoint + Suffix(ratio, more), '@'));
    AcceptedRatio(ratio);
    SplitOfJoin(host, Itoa(port));
  }

  /** The other refusals of tunnel mode: an endpoint that does not split, and a port that is
      not a number. */
  lemma TunnelEntryRefused(endpoint: string, ratio: Option<int>, net: Network)
    requires '@' !in endpoint
    ensures var r, split := ParseEntry(endpoint + Suffix(ratio, ""), true, net), SplitHostPort(endpoint);
            && (split.None? ==> r == Err(InvalidAddressSpecification(endpoint)))
            && (split.Some? && Atoi(split.value.1).None? ==> r == Err(InvalidPort(endpoint)))
  {
    hide Split, SplitHostPort, Ratio, Suffix, Atoi;
    SuffixRead(endpoint, ratio, "");
  }

  function Formatted(ip: string, ratio: int): string {
    ip + "@" + Itoa(ratio)
  }

  lemma FormattedIsEntry(ip: string, ratio: int)
    ensures Formatted(ip, ratio) == ip + Suffix(Some(ratio), "")
  {
  }

  /** Writing an interface as "ip@ratio" and parsing it gives that ratio on that address, in
      exactly the cases where the ratio is a positive 64-bit number and the address is an
      interface's. */
  lemma FormattedParsesBack(ip: string, ratio: int, net: Network)
    requires PlainLiterals(net) && net.parseIP(ip).Some?
    ensures ParseEntry(Formatted(ip, ratio), false, net).Ok? <==>
            1 <= ratio < INT64_LIMIT && net.interfaceOf(ip) != ""
    ensures ParseEntry(Formatted(ip, ratio), false, net).Ok? ==>
              var l := ParseEntry(Formatted(ip, ratio), false, net).value;
              && l.ratio == ratio && l.iface == net.interfaceOf(ip) && l.Fresh()
              && SplitHostPort(l.address) == Some((ip, "0"))
              && (l.isIPv6 <==> net.parseIP(ip) == Some(true))
  {
    hide ParseEntry, Formatted, SplitHostPort;
    FormattedIsEntry(ip, ratio);
    InterfaceEntryParses(ip, Some(ratio), "", net);
  }

  /** Two interfaces never share an address. */
  lemma AddressesDistinct(ip: string, other: string)
    requires Texts.Plain(ip) && Texts.Plain(other)
    ensures JoinHostPort(ip, Itoa(0)) == JoinHostPort(other, Itoa(0)) <==> ip == other
  {
    hide SplitHostPort, JoinHostPort;
    SplitOfJoin(ip, Itoa(0));
    SplitOfJoin(other, Itoa(0));
  }
}
