/**
Answering a SOCKS5 request (dispatcher/server_response.go, dispatcher/family.go,
dispatcher/dispatcher.go:270-284): find the destination's families, select a link, dial,
record the outcome, reply. Name lookups and dials are inputs.
*/
module ServerResponse {
  import opened Links
  import opened Scheduling
  import opened Engine
  import opened DialErrors
  import opened Dispatching
  import opened Streams
  import opened Socks
  import opened SocksClient
  import opened Texts

  // An address as the library classifies it: IPv4 if it has a four-byte form.
  predicate HasAddress(addrs: seq<IP>, v4: bool) {
    exists k :: 0 <= k < |addrs| && addrs[k].IPv4? == v4
  }

  // The library's reading of a text as an IP literal, and the addresses it finds for a name.
  datatype Resolver = Resolver(parseIP: string -> Option<IP>, lookup: string -> Option<seq<IP>>)

  // IPv4 and IPv6, as far as the destination has them; none if that cannot be told.
  type Families = Option<(bool, bool)>

  ghost function HostFamilies(host: string, resolver: Resolver): Families {
    match resolver.parseIP(host)
    case Some(ip) => Some((ip.IPv4?, ip.IPv6?))
    case None =>
      match resolver.lookup(host)
      case None => None
      case Some(addrs) => if addrs == [] then None else Some((HasAddress(addrs, true), HasAddress(addrs, false)))
  }

  ghost function FamiliesOf(address: string, resolver: Resolver): Families {
    match SplitHostPort(address)
    case None => None
    case Some((host, _)) => HostFamilies(host, resolver)
  }

  // The destination has an address of this family: its own, if it is a literal.
  ghost predicate Offers(host: string, resolver: Resolver, v6: bool) {
    match resolver.parseIP(host)
    case Some(ip) => ip.IPv6? == v6
    case None =>
      match resolver.lookup(host)
      case None => false
      case Some(addrs) => exists k :: 0 <= k < |addrs| && addrs[k].IPv6? == v6
  }

  /** The flags are the families the destination has, IPv4 first; there are none exactly
      when it has no address at all. */
  lemma FamiliesAreOffered(host: string, resolver: Resolver)
    ensures var r := HostFamilies(host, resolver);
            && (r.Some? ==> (r.value.0 <==> Offers(host, resolver, false)))
            && (r.Some? ==> (r.value.1 <==> Offers(host, resolver, true)))
            && (r.None? <==> !Offers(host, resolver, false) && !Offers(host, resolver, true))
  {
    var ip, lookup := resolver.parseIP(host), resolver.lookup(host);
    if ip.None? && lookup.Some? && lookup.value != [] {
      var addrs := lookup.value;
      assert addrs[0].IPv6? == true || addrs[0].IPv6? == false;
      if k :| 0 <= k < |addrs| && addrs[k].IPv4? == true {
        assert addrs[k].IPv6? == false;
      }
      if k :| 0 <= k < |addrs| && addrs[k].IPv4? == false {
        assert addrs[k].IPv6? == true;
      }
      if k :| 0 <= k < |addrs| && addrs[k].IPv6? == false {
        assert addrs[k].IPv4? == true;
      }
      if k :| 0 <= k < |addrs| && addrs[k].IPv6? == true {
        assert addrs[k].IPv4? == false;
      }
    }
  }

  /** Which address families a destination has. A literal needs no lookup and has
      exactly its own; a name has those among its addresses, and fails without any. */
  method DestinationFamilies(host: string, resolver: Resolver) returns (r: Families)
    ensures r == HostFamilies(host, resolver)
    ensures r.Some? ==> r.value.0 || r.value.1
    ensures var ip := resolver.parseIP(host);
            ip.Some? ==> r.Some? && (r.value.0 <==> ip.value.IPv4?) && (r.value.1 <==> ip.value.IPv6?)
    ensures var found := resolver.lookup(host);
            resolver.parseIP(host).None? ==>
              && (r.Some? <==> found.Some? && found.value != [])
              && (r.Some? ==> (r.value.0 <==> exists k :: 0 <= k < |found.value| && found.value[k].IPv4?))
              && (r.Some? ==> (r.value.1 <==> exists k :: 0 <= k < |found.value| && found.value[k].IPv6?))
  {
    var ip := resolver.parseIP(host);
    if ip.Some? {
      return if ip.value.IPv4? then Some((true, false)) else Some((false, true));
    }
    var lookup := resolver.lookup(host);
    if lookup.None? {
      return None;
    }
    var addrs := lookup.value;
    var hasV4, hasV6 := false, false;
    for i := 0 to |addrs|
      invariant hasV4 <==> HasAddress(addrs[..i], true)
      invariant hasV6 <==> HasAddress(addrs[..i], false)
    {
      assert addrs[..i + 1] == addrs[..i] + [addrs[i]];
      OneMoreAddress(addrs[..i], addrs[i]);
      if addrs[i].IPv4? {
        hasV4 := true;
        continue;
      }
      hasV6 := true;
    }
    assert addrs[..|addrs|] == addrs;
    assert addrs != [] ==> HasAddress(addrs, addrs[0].IPv4?);
    if !hasV4 && !hasV6 {
      return None;
    }
    return Some((hasV4, hasV6));
  }

  lemma OneMoreAddress(addrs: seq<IP>, a: IP)
    ensures forall v4 :: HasAddress(addrs + [a], v4) <==> HasAddress(addrs, v4) || a.IPv4? == v4
  {
    forall v4 | HasAddress(addrs, v4) || a.IPv4? == v4 ensures HasAddress(addrs + [a], v4) {
      if a.IPv4? == v4 {
        assert (addrs + [a])[|addrs|] == a;
      } else {
        var k :| 0 <= k < |addrs| && addrs[k].IPv4? == v4;
        assert (addrs + [a])[k] == addrs[k];
      }
    }
  }

  // The link chosen is dialled with this outcome: no error, or one.
  type Dialling = nat -> Option<DialError>

  ghost predicate Reached(choice: Choice, dial: Dialling) {
    !choice.NoCompatible? && dial(choice.index).None?
  }

  // What is recorded about the link after it was chosen.
  ghost function RecordSteps(choice: Choice, from: Id, dial: Dialling): seq<Event> {
    if choice.NoCompatible? then []
    else
      var id := from + choice.index;
      match dial(choice.index)
      case None => [Success(id), Tally(id, 0, 0, 1)]
      case Some(err) => DialFailureSteps(id, err)
  }

  lemma RecordRun(s: State, choice: Choice, from: Id, dial: Dialling)
    requires Wf(s)
    ensures choice.NoCompatible? ==> !Reached(choice, dial) && Run(s, RecordSteps(choice, from, dial)) == s
    ensures !choice.NoCompatible? ==>
              var id, outcome := from + choice.index, dial(choice.index);
              && (Reached(choice, dial) <==> outcome.None?)
              && (outcome.None? ==>
                    Run(s, RecordSteps(choice, from, dial)) == Step(Step(s, Success(id)), Tally(id, 0, 0, 1)))
              && (outcome.Some? ==> RecordSteps(choice, from, dial) == DialFailureSteps(id, outcome.value))
  {
    hide Step, DialFailureSteps;
    if Reached(choice, dial) {
      var id := from + choice.index;
      RunOneMore(s, [], Success(id));
      RunOneMore(s, [Success(id)], Tally(id, 0, 0, 1));
    }
  }

  method Unreachable(conn: Conn)
    modifies conn`outgoing, conn`room, conn`closed
    ensures conn.closed && conn.room == Less(old(conn.room))
    ensures conn.outgoing == Sending(old(conn.outgoing), Reply(NETWORK_UNREACHABLE), old(conn.room))
  {
    var _ := conn.Write(Reply(NETWORK_UNREACHABLE));
    conn.Close();
  }

  // What to do with the link selected.
  method DialAndRecord(d: Dispatcher, conn: Conn, lb: LoadBalancer, index: nat, ghost choice: Choice, dial: Dialling)
    returns (served: bool)
    requires d.Valid() && lb in d.objects && lb.id == d.base + index
    requires !choice.NoCompatible? && choice.index == index
    modifies lb, conn`outgoing, conn`room, conn`closed
    ensures d.Valid()
    ensures d.Abs() == Run(old(d.Abs()), RecordSteps(choice, d.base, dial))
    ensures served <==> Reached(choice, dial)
    ensures conn.outgoing ==
            Sending(old(conn.outgoing), Reply(if served then SUCCESS else NETWORK_UNREACHABLE), old(conn.room))
    ensures conn.room == Less(old(conn.room))
    ensures conn.closed == if served then old(conn.closed) else true
  {
    hide *;
    RecordRun(d.Abs(), choice, d.base, dial);
    var err := dial(index);
    if err.Some? {
      var _ := d.RecordDialFailure(lb, err.value);
      Unreachable(conn);
      return false;
    }
    d.RecordDialSuccess(lb);
    d.CountConnection(lb);
    var _ := conn.Write(Reply(SUCCESS));
    return true;
  }

  // The link the scheduler finds for these families, if any.
  ghost function LinkFor(links: seq<Link>, c: nat, families: Families): Option<nat>
    requires CursorOk(c, |links|)
  {
    match families
    case None => None
    case Some((hasV4, hasV6)) =>
      match Choose(links, c, hasV4, hasV6)
      case InRotation(i) => Some(i)
      case Fallback(i) => Some(i)
      case NoCompatible => None
  }

  /** A link fits a destination if the destination has an address of the link's family; none
      is right only if it does not split or no link of the list fits it. */
  ghost predicate Fitting(links: seq<Link>, address: string, resolver: Resolver, chosen: Option<nat>) {
    var split := SplitHostPort(address);
    match chosen
    case Some(i) => split.Some? && i < |links| && Offers(split.value.0, resolver, links[i].isIPv6)
    case None => split.Some? ==> forall k :: 0 <= k < |links| ==> !Offers(split.value.0, resolver, links[k].isIPv6)
  }

  lemma LinkFits(links: seq<Link>, c: nat, address: string, resolver: Resolver)
    requires CursorOk(c, |links|)
    ensures Fitting(links, address, resolver, LinkFor(links, c, FamiliesOf(address, resolver)))
  {
    hide HostFamilies, Offers, Choose, SplitHostPort;
    var families := FamiliesOf(address, resolver);
    FamiliesSplit(address, resolver);
    if SplitHostPort(address).Some? {
      FamiliesAreOffered(SplitHostPort(address).value.0, resolver);
      if families.Some? {
        ChoiceIsNearest(links, c, families.value.0, families.value.1);
        forall k | 0 <= k < |links|
          ensures Usable(links, families.value.0, families.value.1)[k] <==>
                  Offers(SplitHostPort(address).value.0, resolver, links[k].isIPv6)
        {
        }
      }
    }
  }

  // The link the scheduler finds for these families answers.
  ghost predicate Serves(links: seq<Link>, c: nat, families: Families, dial: Dialling)
    requires CursorOk(c, |links|)
  {
    families.Some? && Reached(Choose(links, c, families.value.0, families.value.1), dial)
  }

  // The state after the scheduler's choice and the record of its dial, if it came to that.
  ghost function Answered(s: State, from: Id, families: Families, dial: Dialling): State
    requires Wf(s)
  {
    match families
    case None => s
    case Some((hasV4, hasV6)) =>
      Run(Step(s, Request(hasV4, hasV6)), RecordSteps(Choose(LiveLinks(s), s.cursor, hasV4, hasV6), from, dial))
  }

  lemma AnsweredRun(s: State, from: Id, families: Families, dial: Dialling)
    requires Wf(s) && CursorOk(s.cursor, |s.live|)
    ensures families.None? ==> Answered(s, from, families, dial) == s && !Serves(LiveLinks(s), s.cursor, families, dial)
    ensures families.Some? ==>
              var choice := Choose(LiveLinks(s), s.cursor, families.value.0, families.value.1);
              && Answered(s, from, families, dial) ==
                 Run(Step(s, Request(families.value.0, families.value.1)), RecordSteps(choice, from, dial))
              && (Serves(LiveLinks(s), s.cursor, families, dial) <==> Reached(choice, dial))
  {
    hide Run, Step, Choose, RecordSteps, Reached, LiveLinks, Wf;
  }

  // A link before and after it was dialled with this outcome; its turn is another matter.
  ghost predicate Marked(l: Link, l': Link, outcome: Option<DialError>) {
    match outcome
    case None =>
      l' == l.(current := l'.current, failures := 0, reported := false, handled := (l.handled + 1) % COUNTER_MODULUS)
    case Some(err) =>
      if IsDestinationError(err) then l' == l.(current := l'.current)
      else l' == l.(current := l'.current, lastError := err.Message(), failures := l.failures + 1,
                    excluded := l'.excluded, excludedReason := l'.excludedReason, reported := l'.reported)
  }

  /** What an answer leaves behind. Without a link, nothing. With one, only that link is
      written: a dial that succeeds clears its streak and counts one more connection, a
      failure of its own becomes its last error and lengthens the streak, and a failure of
      the destination leaves no mark. The client is served exactly in the first case. */
  lemma AnswerRecorded(s: State, from: Id, families: Families, dial: Dialling)
    requires Wf(s) && forall k :: 0 <= k < |s.live| ==> s.live[k] == from + k
    ensures var t, chosen := Answered(s, from, families, dial), LinkFor(LiveLinks(s), s.cursor, families);
            && (Serves(LiveLinks(s), s.cursor, families, dial) <==> chosen.Some? && dial(chosen.value).None?)
            && (chosen.None? ==> t == s)
            && (chosen.Some? ==>
                  && chosen.value < |s.live| && |t.heap| == |s.heap| && t.live == s.live
                  && (forall p :: 0 <= p < |s.heap| && p != from + chosen.value ==> t.heap[p] == s.heap[p])
                  && Marked(s.heap[from + chosen.value], t.heap[from + chosen.value], dial(chosen.value)))
  {
    hide Step, Run, Choose, LinkFor, Answered, Serves, Reached, RecordSteps, Marked, DialFailureSteps;
    AnsweredRun(s, from, families, dial);
    LinkForMeans(LiveLinks(s), s.cursor, families);
    if families.Some? {
      var t := Step(s, Request(families.value.0, families.value.1));
      var choice := Choose(LiveLinks(s), s.cursor, families.value.0, families.value.1);
      RequestWritesChosen(s, families.value.0, families.value.1);
      RecordRun(t, choice, from, dial);
      if !choice.NoCompatible? {
        var id, i := from + choice.index, choice.index;
        DialRecorded(t, id, dial(i));
        MarkedThrough(s.heap[id], t.heap[id], Answered(s, from, families, dial).heap[id], dial(i));
      }
    }
  }

  lemma MarkedThrough(l: Link, m: Link, r: Link, outcome: Option<DialError>)
    requires m == l.(current := m.current) && Marked(m, r, outcome)
    ensures Marked(l, r, outcome)
  {
    hide IsDestinationError;
  }

  lemma LinkForMeans(links: seq<Link>, c: nat, families: Families)
    requires CursorOk(c, |links|)
    ensures LinkFor(links, c, families) ==
            if families.None? then None
            else var choice := Choose(links, c, families.value.0, families.value.1);
                 if choice.NoCompatible? then None else Some(choice.index)
  {
  }

  // A request writes the turn of the link it gets, and nothing else on the heap.
  lemma RequestWritesChosen(s: State, hasV4: bool, hasV6: bool)
    requires Wf(s)
    ensures var t, choice := Step(s, Request(hasV4, hasV6)), Choose(LiveLinks(s), s.cursor, hasV4, hasV6);
            && (choice.NoCompatible? ==> t == s)
            && t.live == s.live && |t.heap| == |s.heap|
            && (!choice.NoCompatible? ==>
                  && choice.index < |s.live|
                  && var id := s.live[choice.index];
                     && t.heap[id] == s.heap[id].(current := t.heap[id].current)
                     && forall p :: 0 <= p < |s.heap| && p != id ==> t.heap[p] == s.heap[p])
  {
    hide Step, Find, Eligible, Usable, Choose;
    RequestStep(s, hasV4, hasV6);
  }

  lemma DialRecorded(s: State, id: Id, outcome: Option<DialError>)
    requires Wf(s) && id < |s.heap|
    ensures var t := match outcome
                     case None => Step(Step(s, Success(id)), Tally(id, 0, 0, 1))
                     case Some(err) => Run(s, DialFailureSteps(id, err));
            && |t.heap| == |s.heap| && t.live == s.live
            && Marked(s.heap[id], t.heap[id], outcome)
            && forall p :: 0 <= p < |s.heap| && p != id ==> t.heap[p] == s.heap[p]
  {
    hide Run, IsDestinationError;
    if outcome.Some? {
      DialFailureRun(s, id, outcome.value);
    }
  }

  /** The whole answer: the link is the scheduler's choice, the outcome of the dial is
      recorded on it and on nothing else, and the client is told SUCCESS exactly when a
      link was found and reached the destination. */
  method Respond(d: Dispatcher, conn: Conn, families: Families, dial: Dialling) returns (served: bool)
    requires d.Valid()
    modifies d`lbIndex, d.objects, conn`outgoing, conn`room, conn`closed
    ensures d.Valid() && d.Abs() == Answered(old(d.Abs()), d.base, families, dial)
    ensures CursorOk(old(d.lbIndex), |d.lbList|)
    ensures served <==> Serves(old(Views(d.lbList)), old(d.lbIndex), families, dial)
    ensures conn.outgoing ==
            Sending(old(conn.outgoing), Reply(if served then SUCCESS else NETWORK_UNREACHABLE), old(conn.room))
    ensures conn.room == Less(old(conn.room))
    ensures conn.closed == if served then old(conn.closed) else true
  {
    hide *;
    d.ListIsHeld();
    AnsweredRun(d.Abs(), d.base, families, dial);
    if families.None? {
      Unreachable(conn);
      return false;
    }
    ghost var choice := Choose(Views(d.lbList), d.lbIndex, families.value.0, families.value.1);
    var r := d.GetLoadBalancerFor(families.value.0, families.value.1);
    RecordRun(d.Abs(), choice, d.base, dial);
    if r.Selected? {
      d.ObjectAt(r.index);
      served := DialAndRecord(d, conn, r.lb, r.index, choice, dial);
    } else {
      Unreachable(conn);
      served := false;
    }
  }

  /** From the printed destination: one that does not split is unreachable, and a link is
      chosen only for a family that the destination has. */
  method AnswerRequest(d: Dispatcher, conn: Conn, address: string, resolver: Resolver, dial: Dialling)
    returns (served: bool)
    requires d.Valid()
    modifies d`lbIndex, d.objects, conn`outgoing, conn`room, conn`closed
    ensures d.Valid() && d.Abs() == Answered(old(d.Abs()), d.base, FamiliesOf(address, resolver), dial)
    ensures CursorOk(old(d.lbIndex), |d.lbList|)
    ensures served <==> Serves(old(Views(d.lbList)), old(d.lbIndex), FamiliesOf(address, resolver), dial)
    ensures var links := old(Views(d.lbList));
            Fitting(links, address, resolver, LinkFor(links, old(d.lbIndex), FamiliesOf(address, resolver)))
    ensures conn.outgoing ==
            Sending(old(conn.outgoing), Reply(if served then SUCCESS else NETWORK_UNREACHABLE), old(conn.room))
    ensures conn.room == Less(old(conn.room))
    ensures conn.closed == if served then old(conn.closed) else true
  {
    hide *;
    d.ListIsHeld();
    LinkFits(Views(d.lbList), d.lbIndex, address, resolver);
    FamiliesSplit(address, resolver);
    var split := SplitHostPort(address);
    var families: Families := None;
    if split.Some? {
      families := DestinationFamilies(split.value.0, resolver);
    }
    served := Respond(d, conn, families, dial);
  }

  lemma FamiliesSplit(address: string, resolver: Resolver)
    ensures FamiliesOf(address, resolver) ==
            if SplitHostPort(address).None? then None else HostFamilies(SplitHostPort(address).value.0, resolver)
  {
  }
}
