/**
A decoded destination on its way to the dialler: the server prints it as "host:port"
(dispatcher/socks.go:83-130) and the dispatcher splits it again
(dispatcher/dispatcher.go:272-284, dispatcher/family.go:65-73).
*/
module Destinations {
  import opened Links
  import opened Streams
  import opened Socks
  import opened Texts

  function Characters(bytes: seq<Byte>): (s: string)
    ensures |s| == |bytes| && forall k :: 0 <= k < |s| ==> s[k] == bytes[k] as char
  {
    seq(|bytes|, k requires 0 <= k < |bytes| => bytes[k] as char)
  }

  function Dotted(octets: seq<Byte>): string
    requires |octets| == 4
  {
    Itoa(octets[0]) + "." + Itoa(octets[1]) + "." + Itoa(octets[2]) + "." + Itoa(octets[3])
  }

  // The host as printed; `ipv6` is the library's text for sixteen bytes.
  function HostText(h: Host, ipv6: seq<Byte> -> string): string
    requires h.Fits()
  {
    match h
    case V4(octets) => Dotted(octets)
    case Name(name) => Characters(name)
    case V6(octets) => ipv6(octets)
  }

  function Printed(d: Destination, ipv6: seq<Byte> -> string): string
    requires d.Fits()
  {
    match d.host
    case V6(octets) => JoinHostPort(ipv6(octets), Itoa(d.port))
    case _ => HostText(d.host, ipv6) + ":" + Itoa(d.port)
  }

  // A name with none of the separators of "host:port".
  predicate PlainName(s: string) {
    ':' !in s && Texts.Plain(s)
  }

  lemma DottedIsPlain(octets: seq<Byte>)
    requires |octets| == 4
    ensures PlainName(Dotted(octets))
  {
    forall n: int | n >= 0 ensures ':' !in Itoa(n) && '[' !in Itoa(n) && ']' !in Itoa(n) {
      ItoaHasNo(n, ':');
      ItoaHasNo(n, '[');
      ItoaHasNo(n, ']');
    }
  }

  /** An IPv4 address is printed with its octets in order. */
  lemma DottedReadsBack(octets: seq<Byte>)
    requires |octets| == 4
    ensures var parts := Split(Dotted(octets), '.');
            |parts| == 4 && forall k :: 0 <= k < 4 ==> Atoi(parts[k]) == Some(octets[k] as int)
  {
    hide *;
    var texts := OctetTexts(octets);
    DottedIsJoined(octets);
    SplitOfJoined(texts, '.');
    forall k | 0 <= k < 4 ensures Atoi(texts[k]) == Some(octets[k] as int) {
      OctetReadsBack(octets[k]);
    }
  }

  ghost function OctetTexts(octets: seq<Byte>): (r: seq<string>)
    requires |octets| == 4
    ensures |r| == 4 && forall k :: 0 <= k < 4 ==> r[k] == Itoa(octets[k]) && '.' !in r[k]
  {
    ItoaHasNo(octets[0], '.');
    ItoaHasNo(octets[1], '.');
    ItoaHasNo(octets[2], '.');
    ItoaHasNo(octets[3], '.');
    [Itoa(octets[0]), Itoa(octets[1]), Itoa(octets[2]), Itoa(octets[3])]
  }

  lemma OctetReadsBack(octet: Byte)
    ensures Atoi(Itoa(octet)) == Some(octet as int)
  {
    AtoiOfItoa(octet);
  }

  lemma DottedIsJoined(octets: seq<Byte>)
    requires |octets| == 4
    ensures Dotted(octets) == Joined(OctetTexts(octets), '.')
  {
    hide Itoa;
    var t := OctetTexts(octets);
    JoinUnfolds(t[3..], '.');
    JoinUnfolds(t[2..], '.');
    JoinUnfolds(t[1..], '.');
    JoinUnfolds(t, '.');
    assert t[2..][1..] == t[3..] && t[1..][1..] == t[2..];
    assert Joined(t[3..], '.') == t[3];
    assert Joined(t[2..], '.') == t[2] + "." + t[3];
    assert Joined(t[1..], '.') == t[1] + "." + t[2] + "." + t[3];
  }

  // A name with a separator in it is split elsewhere or not at all.
  lemma NameSplitsIff(name: string, port: nat)
    ensures SplitHostPort(name + ":" + Itoa(port)) == Some((name, Itoa(port))) <==> PlainName(name)
  {
    ItoaHasNo(port, ':');
    ItoaHasNo(port, '[');
    ItoaHasNo(port, ']');
    if PlainName(name) {
      SplitBare(name, Itoa(port));
    } else {
      var s := name + ":" + Itoa(port);
      assert s[|name| + 1..] == Itoa(port);
      LastColon(s, |name|);
      assert s[..|name|] == name;
      assert forall c :: c in name ==> c in s;
      if s[0] == '[' {
        BracketedHostIsShorter(s, name);
      }
    }
  }

  lemma BracketedHostIsShorter(s: string, name: string)
    requires s != [] && s[0] == '['
    ensures SplitHostPort(s).Some? ==> '[' !in SplitHostPort(s).value.0
  {
    if SplitHostPort(s).Some? {
      var end := IndexOf(s, ']');
      assert forall c :: c in s[1..end] ==> c in s[1..];
    }
  }

  /** A printed destination splits back into its host and port exactly when its name has
      no colon or bracket in it; a literal always does. */
  lemma PrintedSplitsBack(d: Destination, ipv6: seq<Byte> -> string)
    requires d.Fits()
    requires d.host.V6? ==> Texts.Plain(ipv6(d.host.octets))
    ensures SplitHostPort(Printed(d, ipv6)) == Some((HostText(d.host, ipv6), Itoa(d.port))) <==>
            (d.host.Name? ==> PlainName(Characters(d.host.name)))
    ensures Atoi(Itoa(d.port)) == Some(d.port)
  {
    hide SplitHostPort, JoinHostPort, Itoa, Atoi, Dotted;
    AtoiOfItoa(d.port);
    match d.host
    case V4(octets) =>
      DottedIsPlain(octets);
      NameSplitsIff(Dotted(octets), d.port);
    case Name(name) => NameSplitsIff(Characters(name), d.port);
    case V6(octets) =>
      ItoaHasNo(d.port, ':');
      ItoaHasNo(d.port, '[');
      ItoaHasNo(d.port, ']');
      SplitOfJoin(ipv6(octets), Itoa(d.port));
  }
}
