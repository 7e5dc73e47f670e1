/**
The other scheduler, `getLoadBalancer` (dispatcher/dispatcher.go:154-205): no families, no
exclusions, but an optional set of links already tried, which it skips.
*/
module TunnelScheduling {
  import opened Links
  import opened Rotation
  import opened Bitset
  import opened Scheduling

  // Which of n links the bitset does not mark as tried.
  function Untried(bits: nat, n: nat): (r: seq<bool>)
    ensures |r| == n
    ensures forall k :: 0 <= k < n ==> r[k] == (Bit(bits, k) == 0)
  {
    seq(n, k requires 0 <= k < n => Bit(bits, k) == 0)
  }

  ghost predicate SomeUntried(bits: nat, n: nat) {
    exists k :: 0 <= k < n && Bit(bits, k) == 0
  }

  // Skipping a tried link gives up the rest of its turn.
  function Skipped(links: seq<Link>, c: nat, e: nat): (r: seq<Link>)
    requires c < |links| && e <= |links|
    ensures |r| == |links|
    ensures forall k :: 0 <= k < |links| ==>
              r[k] == if Distance(c, k, |links|) < e then links[k].(current := 0) else links[k]
  {
    if e == 0 then links
    else
      var before, i := Skipped(links, c, e - 1), At(c, e - 1, |links|);
      before[i := before[i].(current := 0)]
  }

  // The turn itself; unlike `Counted`, the original tests for equality with the ratio.
  function AfterTunnelTurn(links: seq<Link>, i: nat): (r: (seq<Link>, nat))
    requires i < |links|
    ensures |r.0| == |links|
  {
    var l := links[i].(current := links[i].current + 1);
    if l.current == l.ratio then (links[i := l.(current := 0)], Next(i, |links|))
    else (links[i := l], i)
  }

  function TunnelChoice(links: seq<Link>, c: nat, bits: nat): (i: nat)
    requires c < |links| && SomeUntried(bits, |links|)
    ensures i < |links| && Bit(bits, i) == 0
  {
    FindIsNearest(Untried(bits, |links|), c);
    At(c, Find(Untried(bits, |links|), c), |links|)
  }

  function AfterTunnelPick(links: seq<Link>, c: nat, bits: nat): (r: (seq<Link>, nat))
    requires c < |links| && SomeUntried(bits, |links|)
    ensures |r.0| == |links|
  {
    var skipped := Skipped(links, c, Find(Untried(bits, |links|), c));
    AfterTunnelTurn(skipped, TunnelChoice(links, c, bits))
  }

  lemma SomeLink(bits: nat, n: nat)
    requires SomeUntried(bits, n)
    ensures n > 0
  {
  }

  // The skip loop goes on exactly until it has come as far as the first untried link.
  lemma FirstUntried(bits: nat, n: nat, c: nat)
    requires c < n && SomeUntried(bits, n)
    ensures var e := Find(Untried(bits, n), c);
            e < n && forall d :: 0 <= d <= e ==> (Bit(bits, At(c, d, n)) != 0 <==> d < e)
  {
    FindIsNearest(Untried(bits, n), c);
  }

  lemma NoneSkipped(links: seq<Link>, c: nat)
    requires c < |links|
    ensures Skipped(links, c, 0) == links
  {
  }

  lemma OneMoreSkipped(links: seq<Link>, c: nat, d: nat)
    requires c < |links| && d < |links|
    ensures var before, i := Skipped(links, c, d), At(c, d, |links|);
            Skipped(links, c, d + 1) == before[i := before[i].(current := 0)]
  {
  }

  // An empty bitset skips nothing.
  lemma NothingToSkip(links: seq<Link>, c: nat)
    requires c < |links|
    ensures Find(Untried(0, |links|), c) == 0
    ensures Skipped(links, c, 0) == links
  {
    EmptyHasNoBits(c);
  }

  /** A pick changes nothing about any link but its place in its turn. */
  lemma PickChangesTurnsOnly(links: seq<Link>, c: nat, bits: nat, k: nat)
    requires c < |links| && SomeUntried(bits, |links|) && k < |links|
    ensures |AfterTunnelPick(links, c, bits).0| == |links|
    ensures var l := AfterTunnelPick(links, c, bits).0[k]; l == links[k].(current := l.current)
  {
    hide Find, Skipped, Bit;
  }

  /** The skip loop stops at the first untried link in cyclic order from the cursor, and
      leaves the counters of the untried links it did not choose alone. */
  lemma TunnelChoiceIsNearest(links: seq<Link>, c: nat, bits: nat)
    requires c < |links| && SomeUntried(bits, |links|)
    ensures var n, i := |links|, TunnelChoice(links, c, bits);
            && (forall k :: 0 <= k < n && Bit(bits, k) == 0 ==> Distance(c, i, n) <= Distance(c, k, n))
            && (forall k :: 0 <= k < n && Bit(bits, k) == 0 && k != i ==>
                  AfterTunnelPick(links, c, bits).0[k] == links[k])
  {
    FindIsNearest(Untried(bits, |links|), c);
  }

  /** What a pick does, whatever the bitset: the chosen link takes one more connection of its
      turn and the cursor stays on it until that reaches the ratio exactly; the links passed
      over on the way give up their turns, and every other link is left alone. */
  lemma TunnelPickCounts(links: seq<Link>, c: nat, bits: nat)
    requires c < |links| && SomeUntried(bits, |links|)
    ensures var n, i, (links', c') := |links|, TunnelChoice(links, c, bits), AfterTunnelPick(links, c, bits);
            var done := links[i].current + 1 == links[i].ratio;
            && |links'| == n
            && links'[i] == links[i].(current := if done then 0 else links[i].current + 1)
            && c' == (if !done then i else if i + 1 == n then 0 else i + 1)
            && forall k :: 0 <= k < n && k != i ==>
                 links'[k] == if Distance(c, k, n) < Distance(c, i, n) then links[k].(current := 0) else links[k]
  {
    FindIsNearest(Untried(bits, |links|), c);
  }

  /** Agreement of the two schedulers: when every link is eligible and every counter is
      short of its ratio, a pick without a bitset is the pick by family, equality test or
      not: same link, same counters, same cursor. */
  lemma SchedulersAgree(links: seq<Link>, c: nat, hasV4: bool, hasV6: bool)
    requires c < |links|
    requires forall k :: 0 <= k < |links| ==>
               links[k].UsableFor(hasV4, hasV6) && !links[k].excluded && links[k].InTurn()
    ensures SomeUntried(0, |links|)
    ensures Choose(links, c, hasV4, hasV6) == InRotation(TunnelChoice(links, c, 0))
    ensures AfterTurn(links, TunnelChoice(links, c, 0)) == AfterTunnelPick(links, c, 0)
  {
    EmptyHasNoBits(0);
    EmptyHasNoBits(c);
    assert Find(Untried(0, |links|), c) == 0 == Find(Eligible(links, hasV4, hasV6), c);
    assert links[c].current + 1 <= links[c].ratio;
  }

  /** Refinement: with every counter short of its ratio, a pick without a bitset is one turn
      of the queue of all links, and serves its head. */
  lemma TunnelPickIsTurn(links: seq<Link>, c: nat, wanted: seq<bool>)
    requires c < |links| == |wanted|
    requires forall k :: 0 <= k < |links| ==> links[k].InTurn() && wanted[k]
    ensures SomeUntried(0, |links|) && TunnelChoice(links, c, 0) == c
    ensures var (links', c') := AfterTunnelPick(links, c, 0);
            var q := Queue(links, wanted, c);
            && |links'| == |links| && CursorOk(c', |links|)
            && q != [] && q[0].index == c
            && Queue(links', wanted, c') == Turn(q)
  {
    EmptyHasNoBits(c);
    EmptyHasNoBits(0);
    NothingToSkip(links, c);
    hide Queue, Turn;
    assert AfterTunnelPick(links, c, 0) == AfterTurn(links, c);
    TurnTurnsQueue(links, wanted, c, c);
  }

  // With every link wanted, there is one slot for each.
  lemma {:induction false} SpanOfAll(links: seq<Link>, wanted: seq<bool>, lo: nat, hi: nat)
    requires |wanted| == |links| && lo <= hi <= |links| && forall k :: lo <= k < hi ==> wanted[k]
    ensures |Span(links, wanted, lo, hi)| == hi - lo
    decreases hi - lo
  {
    if lo < hi {
      SpanOfAll(links, wanted, lo + 1, hi);
    }
  }

  lemma QueueOfAll(links: seq<Link>, wanted: seq<bool>, c: nat)
    requires c < |links| == |wanted| && forall k :: 0 <= k < |wanted| ==> wanted[k]
    ensures |Queue(links, wanted, c)| == |links|
  {
    SpanOfAll(links, wanted, c, |links|);
    SpanOfAll(links, wanted, 0, c);
  }

  // A link passed over goes to the back of the queue, its turn given up.
  lemma SkipRequeues(links: seq<Link>, wanted: seq<bool>, i: nat)
    requires i < |links| == |wanted| && wanted[i]
    ensures var q := Queue(links, wanted, i);
            && q != []
            && Queue(links[i := links[i].(current := 0)], wanted, Next(i, |links|)) == q[1..] + [q[0].(current := 0)]
  {
    var links' := links[i := links[i].(current := 0)];
    CursorAdvances(links, wanted, i);
    HeadCounts(links, wanted, i, links'[i]);
    CursorAdvances(links', wanted, i);
    var q, q' := Queue(links, wanted, i), Queue(links', wanted, i);
    assert q'[1..] == q[1..] && q'[0] == q[0].(current := 0);
  }

  lemma OneRequeued(q: seq<Slot>, d: nat)
    requires d < |q|
    ensures q[0..] + Reset(q[..0]) == q
    ensures var p := q[d..] + Reset(q[..d]);
            p[1..] + [p[0].(current := 0)] == q[d + 1..] + Reset(q[..d + 1])
  {
    var p := q[d..] + Reset(q[..d]);
    assert p[1..] == q[d + 1..] + Reset(q[..d]) && p[0] == q[d];
    assert Reset(q[..d + 1]) == Reset(q[..d]) + [q[d].(current := 0)];
  }

  lemma {:induction false} SkipsRequeue(links: seq<Link>, wanted: seq<bool>, c: nat, d: nat)
    requires c < |links| == |wanted| && d < |links| && forall k :: 0 <= k < |wanted| ==> wanted[k]
    ensures var q := Queue(links, wanted, c);
            && |q| == |links|
            && Queue(Skipped(links, c, d), wanted, At(c, d, |links|)) == q[d..] + Reset(q[..d])
  {
    hide Queue, Skipped, Reset;
    var q, n := Queue(links, wanted, c), |links|;
    QueueOfAll(links, wanted, c);
    if d > 0 {
      SkipsRequeue(links, wanted, c, d - 1);
      OneMoreSkipped(links, c, d - 1);
      SkipRequeues(Skipped(links, c, d - 1), wanted, At(c, d - 1, n));
      OneRequeued(q, d - 1);
    } else {
      NoneSkipped(links, c);
      OneRequeued(q, 0);
    }
  }

  /** Refinement, for any bitset: with every counter short of its ratio, the slots of the
      links passed over go to the back of the queue of all links with their turns given up,
      and then the queue takes one turn. It serves the chosen link, which is at its head. */
  lemma RetryPickIsTurn(links: seq<Link>, c: nat, bits: nat, wanted: seq<bool>)
    requires c < |links| == |wanted| && SomeUntried(bits, |links|)
    requires forall k :: 0 <= k < |links| ==> links[k].InTurn() && wanted[k]
    ensures var i, (links', c') := TunnelChoice(links, c, bits), AfterTunnelPick(links, c, bits);
            var q, d := Queue(links, wanted, c), Distance(c, i, |links|);
            && |links'| == |links| == |q| && CursorOk(c', |links|)
            && q[d] == Slot(i, links[i].ratio, links[i].current)
            && Queue(links', wanted, c') == Turn(q[d..] + Reset(q[..d]))
  {
    var i, d := TunnelChoice(links, c, bits), Distance(c, TunnelChoice(links, c, bits), |links|);
    TunnelPickCounts(links, c, bits);
    FindIsNearest(Untried(bits, |links|), c);
    hide Queue, Skipped, Turn, SomeUntried, Find;
    var skipped := Skipped(links, c, d);
    SkipsRequeue(links, wanted, c, d);
    assert AfterTunnelPick(links, c, bits) == AfterTurn(skipped, i);
    CursorAdvances(skipped, wanted, i);
    TurnTurnsQueue(skipped, wanted, i, i);
  }

  /** The invariant the agreement needs survives every pick of either scheduler. */
  lemma PicksStayInTurn(links: seq<Link>, c: nat, i: nat, bits: nat)
    requires c < |links| && i < |links| && SomeUntried(bits, |links|)
    requires forall k :: 0 <= k < |links| ==> links[k].InTurn()
    ensures forall k :: 0 <= k < |links| ==> AfterTurn(links, i).0[k].InTurn()
    ensures forall k :: 0 <= k < |links| ==> AfterTunnelPick(links, c, bits).0[k].InTurn()
    ensures AfterTurn(links, i).1 < |links| && AfterTunnelPick(links, c, bits).1 < |links|
  {
  }

  // Without the invariant they part: a counter already past its ratio is never reset by
  // the equality test.
  lemma SchedulersPartPastTheRatio(l: Link)
    requires l.ratio >= 1 && l.current >= l.ratio && !l.excluded && !l.isIPv6
    ensures AfterTurn([l], 0).0[0].current == 0
    ensures SomeUntried(0, 1) && AfterTunnelPick([l], 0, 0).0[0].current == l.current + 1
  {
    assert Bit(0, 0) == 0;
  }
}
