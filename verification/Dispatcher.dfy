/**
The dispatcher itself (dispatcher/dispatcher.go, dispatcher/health.go): link objects and
methods that update them in place under the mutex. Each method is proved to take exactly
the step of `Engine` it stands for, over every link object ever made live.
*/
module Dispatching {
  import opened Links
  import opened Bitset
  import opened Scheduling
  import opened TunnelScheduling
  import opened Engine
  import opened Probes
  import opened TunnelRetry
  import opened DialErrors

  class LoadBalancer {
    var address: string
    var iface: string
    var contentionRatio: int
    var currentConnections: int
    var isIPv6: bool
    var bytesSent: Counter
    var bytesReceived: Counter
    var connectionsHandled: Counter
    var lastError: string
    var excluded: bool
    var excludedReason: string
    var consecutiveFailures: int
    var reported: bool

    // Which of all the link objects this is.
    ghost const id: Id

    function View(): Link
      reads this
    {
      Link(address, iface, contentionRatio, currentConnections, isIPv6,
           bytesSent, bytesReceived, connectionsHandled, lastError,
           excluded, excludedReason, consecutiveFailures, reported)
    }

    constructor (l: Link, ghost id: Id)
      ensures View() == l && this.id == id
    {
      address, iface, contentionRatio, currentConnections, isIPv6 := l.address, l.iface, l.ratio, l.current, l.isIPv6;
      bytesSent, bytesReceived, connectionsHandled, lastError := l.sent, l.received, l.handled, l.lastError;
      excluded, excludedReason, consecutiveFailures, reported := l.excluded, l.excludedReason, l.failures, l.reported;
      this.id := id;
    }

    predicate UsableFor(hasV4: bool, hasV6: bool)
      reads this
    {
      if isIPv6 then hasV6 else hasV4
    }
  }

  ghost function Views(lbs: seq<LoadBalancer>): (r: seq<Link>)
    reads lbs
    ensures |r| == |lbs|
    ensures forall k :: 0 <= k < |lbs| ==> r[k] == lbs[k].View()
  {
    if lbs == [] then [] else Views(lbs[..|lbs| - 1]) + [lbs[|lbs| - 1].View()]
  }

  ghost function IncludeAlert(l: Link): seq<HealthEvent> {
    if l.excluded then [HealthEvent(l.address, false, "restored manually")] else []
  }

  ghost function IncludeAlerts(links: seq<Link>): seq<HealthEvent> {
    if links == [] then []
    else IncludeAlerts(links[..|links| - 1]) + IncludeAlert(links[|links| - 1])
  }

  lemma NoAlerts()
    ensures IncludeAlerts([]) == []
  {
  }

  lemma OneMoreAlert(links: seq<Link>, i: nat)
    requires i < |links|
    ensures IncludeAlerts(links[..i + 1]) == IncludeAlerts(links[..i]) + IncludeAlert(links[i])
  {
    assert links[..i + 1][..i] == links[..i];
  }

  /** One event for every excluded link, in list order, and none for the others. */
  lemma {:induction false} IncludeAlertsTell(links: seq<Link>, n: nat)
    requires n <= |links|
    ensures var alerts, restored := IncludeAlerts(links[..n]), Candidates(links, n);
            && |alerts| == |restored|
            && forall k :: 0 <= k < |restored| ==> alerts[k] == HealthEvent(restored[k].1, false, "restored manually")
  {
    hide IncludeAlerts;
    if n == 0 {
      NoAlerts();
    } else {
      IncludeAlertsTell(links, n - 1);
      OneMoreAlert(links, n - 1);
    }
  }

  datatype Selection =
    | Selected(lb: LoadBalancer, index: nat)
    | NoCompatibleLoadBalancer
    | AllLoadBalancersExcluded

  /** The callback for health changes is not part of the state: a method that calls it
      returns what it was called with, in order. */
  class Dispatcher {
    var lbList: seq<LoadBalancer>
    var lbIndex: nat
    var autoExclude: bool
    var failureThreshold: int

    // Every object that was ever in the list: in-flight connections may still hold it.
    // The list itself is the part from `base` on.
    var objects: seq<LoadBalancer>
    ghost var base: nat

    ghost predicate Valid()
      reads this
    {
      && base <= |objects| && lbList == objects[base..]
      && (forall k :: 0 <= k < |objects| ==> objects[k].id == k)
      && CursorOk(lbIndex, |lbList|)
    }

    ghost function Abs(): (s: State)
      requires Valid()
      reads this, objects
      ensures Wf(s) && s.cursor == lbIndex && s.live == NewIds(base, |lbList|) && s.heap == Views(objects)
      ensures s.autoExclude == autoExclude && s.threshold == failureThreshold
      ensures LiveLinks(s) == Views(lbList)
    {
      var s := State(Views(objects), NewIds(base, |lbList|), lbIndex, autoExclude, failureThreshold);
      assert LiveLinks(s) == Views(lbList);
      s
    }

    constructor (links: seq<Link>)
      ensures Valid() && fresh(objects) && lbList == objects
      ensures Abs() == State(links, NewIds(0, |links|), 0, false, 0)
    {
      hide *;
      var list := Allocate(links, 0);
      lbList, objects, base := list, list, 0;
      lbIndex, autoExclude, failureThreshold := 0, false, 0;
      new;
      Starts(links);
    }

    lemma Starts(links: seq<Link>)
      requires lbList == objects && base == 0 && lbIndex == 0 && !autoExclude && failureThreshold == 0
      requires Views(objects) == links && forall k :: 0 <= k < |objects| ==> objects[k].id == k
      ensures Valid() && Abs() == State(links, NewIds(0, |links|), 0, false, 0)
    {
      hide LoadBalancer.View, Views, Wf, NewIds, Abs;
      assert objects[0..] == lbList;
    }

    // Fresh objects for a list of links.
    static method Allocate(links: seq<Link>, ghost from: Id) returns (list: seq<LoadBalancer>)
      ensures fresh(list) && Views(list) == links
      ensures forall k :: 0 <= k < |list| ==> list[k].id == from + k
    {
      hide LoadBalancer.View, Views;
      list := [];
      for i := 0 to |links|
        invariant |list| == i && fresh(list)
        invariant forall k :: 0 <= k < i ==> list[k].View() == links[k] && list[k].id == from + k
      {
        var lb := new LoadBalancer(links[i], from + i);
        list := list + [lb];
      }
    }

    method AdvanceLocked()
      requires lbIndex < |lbList|
      modifies this`lbIndex
      ensures lbIndex == Next(old(lbIndex), |lbList|)
    {
      lbIndex := lbIndex + 1;
      if lbIndex >= |lbList| {
        lbIndex := 0;
      }
    }

    // ----- framing: what a write to one object or to the cursor does to the state

    twostate lemma ObjectWritten(lb: LoadBalancer)
      requires old(Valid()) && Valid() && lb in objects
      requires unchanged(`lbList, `objects, `base, `autoExclude, `failureThreshold)
      requires forall o :: o in objects && o != lb ==> unchanged(o)
      ensures lb.id < |objects|
      ensures Abs() == old(Abs()).(heap := old(Abs()).heap[lb.id := lb.View()], cursor := lbIndex)
    {
      hide LoadBalancer.View, Views, Wf;
      var k :| 0 <= k < |objects| && objects[k] == lb;
      assert objects[k].id == k;
      forall i | 0 <= i < |objects| && i != k ensures objects[i] != lb {
        assert objects[i].id == i;
      }
      ViewsWritten(lb, k);
    }

    twostate lemma ViewsWritten(lb: LoadBalancer, new k: nat)
      requires unchanged(`objects) && k < |objects| && objects[k] == lb
      requires forall i :: 0 <= i < |objects| && i != k ==> objects[i] != lb
      requires forall o :: o in objects && o != lb ==> unchanged(o)
      ensures Views(objects) == old(Views(objects))[k := lb.View()]
    {
      hide LoadBalancer.View;
      forall i | 0 <= i < |objects| ensures Views(objects)[i] == old(Views(objects))[k := lb.View()][i] {
        assert objects[i] in objects;
      }
    }

    twostate lemma NothingWritten()
      requires old(Valid()) && Valid()
      requires unchanged(`lbList, `objects, `base, `autoExclude, `failureThreshold) && unchanged(objects)
      ensures Abs() == old(Abs()).(cursor := lbIndex)
    {
      forall i | 0 <= i < |objects| ensures Views(objects)[i] == old(Views(objects))[i] {
        assert objects[i] in objects;
      }
    }

    // ----- a pick by address family

    // First pass: stop at a link that is usable and not excluded.
    method ScanRotation(hasV4: bool, hasV6: bool) returns (found: bool, familyMatch: bool)
      requires CursorOk(lbIndex, |lbList|)
      modifies this`lbIndex
      ensures CursorOk(lbIndex, |lbList|)
      ensures var c, n := old(lbIndex), |lbList|;
              var e, u := Find(Eligible(Views(lbList), hasV4, hasV6), c), Find(Usable(Views(lbList), hasV4, hasV6), c);
              && (found <==> e < n)
              && (found ==> lbIndex == At(c, e, n))
              && (!found ==> lbIndex == c && (familyMatch <==> u < n))
    {
      hide Views, Eligible, Usable, Find, FirstFrom, At, Next;
      ghost var c, n, links := lbIndex, |lbList|, Views(lbList);
      ghost var eligible, usable := Eligible(links, hasV4, hasV6), Usable(links, hasV4, hasV6);
      ScanEnds(eligible, c);
      ScanEnds(usable, c);
      familyMatch := false;
      for scanned := 0 to |lbList|
        invariant lbIndex == (if n == 0 then 0 else At(c, scanned, n))
        invariant Find(eligible, c) == FirstFrom(eligible, c, scanned)
        invariant familyMatch <==> Find(usable, c) < scanned
        invariant !familyMatch ==> Find(usable, c) == FirstFrom(usable, c, scanned)
      {
        LookAt(eligible, c, scanned);
        if !familyMatch {
          LookAt(usable, c, scanned);
        }
        var lb := lbList[lbIndex];
        assert lb.View() == links[lbIndex];

        if !lb.UsableFor(hasV4, hasV6) {
          AdvanceLocked();
          continue;
        }
        familyMatch := true;

        // Out of rotation for now.
        if lb.excluded {
          AdvanceLocked();
          continue;
        }
        assert Views(lbList) == links;
        return true, familyMatch;
      }
      assert Views(lbList) == links;
      return false, familyMatch;
    }

    // Second pass: take the next usable link although it is excluded.
    method ScanFallback(hasV4: bool, hasV6: bool) returns (found: bool, index: nat)
      requires CursorOk(lbIndex, |lbList|)
      modifies this`lbIndex
      ensures CursorOk(lbIndex, |lbList|)
      ensures var c, n := old(lbIndex), |lbList|;
              var u := Find(Usable(Views(lbList), hasV4, hasV6), c);
              && (found <==> u < n)
              && (found ==> index == At(c, u, n) < n && lbIndex == Next(index, n))
    {
      hide Views, Usable, Find, FirstFrom, At, Next;
      ghost var c, n, links := lbIndex, |lbList|, Views(lbList);
      ghost var usable := Usable(links, hasV4, hasV6);
      ScanEnds(usable, c);
      for scanned := 0 to |lbList|
        invariant lbIndex == (if n == 0 then 0 else At(c, scanned, n))
        invariant Find(usable, c) == FirstFrom(usable, c, scanned)
      {
        LookAt(usable, c, scanned);
        index := lbIndex;
        var lb := lbList[index];
        assert lb.View() == links[index];
        AdvanceLocked();

        if lb.UsableFor(hasV4, hasV6) {
          assert Views(lbList) == links;
          return true, index;
        }
      }
      assert Views(lbList) == links;
      return false, 0;
    }

    // The link under the cursor takes one more connection of its turn.
    method CountTurn() returns (lb: LoadBalancer)
      requires lbIndex < |lbList|
      modifies this`lbIndex, lbList[lbIndex]
      ensures lbIndex < |lbList| && lb == lbList[old(lbIndex)]
      ensures lb.View() == Counted(old(lbList[lbIndex].View()))
      ensures lbIndex == TurnCursor(old(lbList[lbIndex].View()), old(lbIndex), |lbList|)
    {
      lb := lbList[lbIndex];
      lb.currentConnections := lb.currentConnections + 1;
      if lb.currentConnections >= lb.contentionRatio {
        lb.currentConnections := 0;
        AdvanceLocked();
      }
    }

    method TakeTurn() returns (lb: LoadBalancer)
      requires Valid() && lbIndex < |lbList|
      modifies this`lbIndex, lbList[lbIndex]
      ensures Valid() && lb == lbList[old(lbIndex)]
      ensures Abs() == TurnAtCursor(old(Abs()))
    {
      hide Views, LoadBalancer.View, Counted, TurnCursor, Wf;
      assert objects[base + lbIndex] == lbList[lbIndex];
      assert LiveLinks(Abs())[lbIndex] == lbList[lbIndex].View();
      lb := CountTurn();
      ObjectWritten(lb);
    }

    // The passes again, as what they do to the state.
    method Rotate(hasV4: bool, hasV6: bool) returns (found: bool, familyMatch: bool)
      requires Valid()
      modifies this`lbIndex
      ensures Valid() && Abs() == old(Abs()).(cursor := lbIndex)
      ensures CursorOk(old(lbIndex), |lbList|)
      ensures var c, n := old(lbIndex), |lbList|;
              var e, u := Find(Eligible(Views(lbList), hasV4, hasV6), c), Find(Usable(Views(lbList), hasV4, hasV6), c);
              && (found <==> e < n)
              && (found ==> lbIndex == At(c, e, n) < n)
              && (!found ==> lbIndex == c && (familyMatch <==> u < n))
    {
      hide Find, Eligible, Usable, Views, Wf, LoadBalancer.View;
      found, familyMatch := ScanRotation(hasV4, hasV6);
      NothingWritten();
    }

    method FallBack(hasV4: bool, hasV6: bool) returns (found: bool, index: nat)
      requires Valid()
      modifies this`lbIndex
      ensures Valid() && Abs() == old(Abs()).(cursor := lbIndex)
      ensures CursorOk(old(lbIndex), |lbList|)
      ensures var c, n := old(lbIndex), |lbList|;
              var u := Find(Usable(Views(lbList), hasV4, hasV6), c);
              && (found <==> u < n)
              && (found ==> index == At(c, u, n) < n && lbIndex == Next(index, n))
    {
      hide Find, Usable, Views, Wf, LoadBalancer.View;
      found, index := ScanFallback(hasV4, hasV6);
      NothingWritten();
    }

    /** Picks the next link that can reach the destination's families. Running out of
        alternatives altogether, `AllLoadBalancersExcluded`, cannot happen. */
    method GetLoadBalancerFor(hasV4: bool, hasV6: bool) returns (r: Selection)
      requires Valid()
      modifies this`lbIndex, lbList
      ensures Valid() && lbList == old(lbList)
      ensures Abs() == Step(old(Abs()), Request(hasV4, hasV6))
      ensures match Choose(old(Views(lbList)), old(lbIndex), hasV4, hasV6)
              case InRotation(i) => i < |lbList| && r == Selected(lbList[i], i)
              case Fallback(i) => i < |lbList| && r == Selected(lbList[i], i)
              case NoCompatible => r == NoCompatibleLoadBalancer
    {
      hide *;
      RequestStep(Abs(), hasV4, hasV6);
      var found, familyMatch := Rotate(hasV4, hasV6);
      if found {
        var index := lbIndex;
        var lb := TakeTurn();
        return Selected(lb, index);
      }

      if familyMatch {
        // Everything usable is excluded: a failing link beats refusing outright.
        var fallback, index := FallBack(hasV4, hasV6);
        if fallback {
          return Selected(lbList[index], index);
        }
        return AllLoadBalancersExcluded;
      }

      return NoCompatibleLoadBalancer;
    }

    // ----- the tunnel-mode pick

    // Gives up the turn of the link under the cursor and moves on.
    method SkipOne()
      requires Numbered() && lbIndex < |lbList|
      modifies this`lbIndex, lbList[lbIndex]
      ensures lbIndex == Next(old(lbIndex), |lbList|)
      ensures var i, links := old(lbIndex), old(Views(lbList));
              Views(lbList) == links[i := links[i].(current := 0)]
    {
      hide Views;
      var lb := lbList[lbIndex];
      lb.currentConnections := 0;
      lbIndex := lbIndex + 1;
      if lbIndex == |lbList| {
        lbIndex := 0;
      }
    }

    // Skips the links already tried; the caller has left one untried.
    method SkipTried(tried: nat)
      requires Numbered() && lbIndex < |lbList| && SomeUntried(tried, |lbList|)
      modifies this`lbIndex, lbList
      ensures var c, n := old(lbIndex), |lbList|;
              var e := Find(Untried(tried, n), c);
              && e < n && lbIndex == At(c, e, n) && Views(lbList) == Skipped(old(Views(lbList)), c, e)
    {
      hide Views, Skipped, SomeUntried, Bit, LoadBalancer.View;
      ghost var c, n, links, untried := lbIndex, |lbList|, Views(lbList), Untried(tried, |lbList|);
      ghost var d := 0;
      FirstUntried(tried, n, c);
      NoneSkipped(links, c);
      while Bit(tried, lbIndex) != 0
        invariant d <= Find(untried, c) && lbIndex == At(c, d, n)
        invariant Views(lbList) == Skipped(links, c, d)
        decreases Find(untried, c) - d
      {
        OneMoreSkipped(links, c, d);
        SkipOne();
        d := d + 1;
      }
    }

    // Counts a turn of the link under the cursor, testing for equality with its ratio.
    method CountTunnelTurn() returns (lb: LoadBalancer)
      requires Numbered() && lbIndex < |lbList|
      modifies this`lbIndex, lbList[lbIndex]
      ensures lb == lbList[old(lbIndex)] && lbIndex < |lbList|
      ensures (Views(lbList), lbIndex) == AfterTunnelTurn(old(Views(lbList)), old(lbIndex))
    {
      hide Views;
      ghost var i, links := lbIndex, Views(lbList);
      lb := lbList[lbIndex];
      lb.currentConnections := lb.currentConnections + 1;

      if lb.currentConnections == lb.contentionRatio {
        lb.currentConnections := 0;
        lbIndex := lbIndex + 1;
        if lbIndex == |lbList| {
          lbIndex := 0;
        }
      }
      assert Views(lbList) == links[i := lb.View()];
    }

    // The bitset that a call takes notice of.
    static function Heeded(seed: int, tried: Option<nat>, n: nat): nat {
      if tried.Some? && 0 <= seed < n then tried.value else 0
    }

    // The whole pick, on the links of the list.
    method PickUntried(seed: int, tried: Option<nat>) returns (lb: LoadBalancer, index: nat)
      requires Numbered() && CursorOk(lbIndex, |lbList|)
      requires SomeUntried(Heeded(seed, tried, |lbList|), |lbList|)
      modifies this`lbIndex, lbList
      ensures var links, c, bits := old(Views(lbList)), old(lbIndex), Heeded(seed, tried, |lbList|);
              && c < |links| && CursorOk(lbIndex, |lbList|)
              && (Views(lbList), lbIndex) == AfterTunnelPick(links, c, bits)
              && index == TunnelChoice(links, c, bits) && lb == lbList[index]
    {
      hide LoadBalancer.View, Views, Skipped, Bit, Find, AfterTunnelTurn, SomeUntried;
      SomeLink(Heeded(seed, tried, |lbList|), |lbList|);
      if tried.Some? && 0 <= seed < |lbList| {
        SkipTried(tried.value);
      } else {
        NothingToSkip(Views(lbList), lbIndex);
      }
      index := lbIndex;
      lb := CountTunnelTurn();
    }

    // The pick again, as what it does to the state.
    method PickInTunnel(seed: int, tried: Option<nat>, ghost bits: nat) returns (lb: LoadBalancer, index: nat)
      requires Valid() && bits == Heeded(seed, tried, |lbList|) && SomeUntried(bits, |lbList|)
      requires lbIndex < |lbList|
      modifies this`lbIndex, lbList
      ensures Valid()
      ensures Abs() == Stored(old(Abs()), AfterTunnelPick(old(Views(lbList)), old(lbIndex), bits))
      ensures index == TunnelChoice(old(Views(lbList)), old(lbIndex), bits) && lb == lbList[index]
    {
      hide LoadBalancer.View, Views, Store, AfterTunnelPick, TunnelChoice, SomeUntried, Wf, Heeded, NewIds, Abs;
      ListIsNumbered();
      lb, index := PickUntried(seed, tried);
      ListWritten();
    }

    /** Picks the next link in tunnel mode. The skip loop ends because the caller has left
        a link untried; without a usable bitset nothing is skipped. */
    method GetLoadBalancer(seed: int, tried: Option<nat>) returns (lb: LoadBalancer, index: nat)
      requires Valid() && SomeUntried(Heeded(seed, tried, |lbList|), |lbList|)
      modifies this`lbIndex, lbList
      ensures Valid() && lbList == old(lbList) && lbList != []
      ensures Abs() == Step(old(Abs()), TunnelPick(Heeded(seed, tried, |lbList|)))
      ensures index == TunnelChoice(old(Views(lbList)), old(lbIndex), Heeded(seed, tried, |lbList|))
      ensures lb == lbList[index] && lb in objects && lb.id == base + index
      ensures index < |lbList| && Bit(Heeded(seed, tried, |lbList|), index) == 0
      ensures tried.None? || !(0 <= seed < |lbList|) ==> index == old(lbIndex)
      ensures tried.Some? && 0 <= seed < |lbList| ==> Bit(tried.value, index) == 0
    {
      hide *;
      ghost var s, bits := Abs(), Heeded(seed, tried, |lbList|);
      SomeLink(bits, |lbList|);
      ListIsHeld();
      CursorInList();
      TunnelStep(s, bits);
      BitsetIgnored(Views(lbList), lbIndex, seed, tried);
      lb, index := PickInTunnel(seed, tried, bits);
      ObjectAt(index);
    }

    // ----- the health critical sections

    twostate lemma LinkStepTaken(lb: LoadBalancer, new e: Event)
      requires OnLink(e)
      requires e.id == lb.id && lb in objects
      requires old(Valid()) && Valid()
      requires unchanged(`lbList, `lbIndex, `objects, `base, `autoExclude, `failureThreshold)
      requires forall o :: o in objects && o != lb ==> unchanged(o)
      requires lb.View() == LinkStep(old(lb.View()), autoExclude, failureThreshold, e)
      ensures lb.id < |objects| && Abs() == Step(old(Abs()), e)
    {
      hide LinkStep, LoadBalancer.View, Wf, Step, Views;
      ObjectWritten(lb);
      var k :| 0 <= k < |objects| && objects[k] == lb;
      assert old(Views(objects))[k] == old(lb.View());
      LinkStepWrites(old(Abs()), e);
    }

    method NoteSuccess(lb: LoadBalancer)
      requires Valid() && lb in objects
      modifies lb
      ensures Valid() && Abs() == Step(old(Abs()), Success(lb.id))
    {
      ghost var l, e := lb.View(), Success(lb.id);
      lb.consecutiveFailures := 0;
      lb.reported := false;
      assert lb.View() == Succeeded(l) == LinkStep(l, autoExclude, failureThreshold, e);
      hide LinkStep, LoadBalancer.View;
      LinkStepTaken(lb, e);
    }

    /** Counts a link failure. The result says that this call excluded the link and also
        alerted: a link that had already alerted in this spell is excluded silently. */
    method NoteFailure(lb: LoadBalancer, reason: string) returns (r: bool, alerts: seq<HealthEvent>)
      requires Valid() && lb in objects
      modifies lb
      ensures Valid() && Abs() == Step(old(Abs()), Failure(lb.id, reason))
      ensures alerts == FailureAlerts(old(lb.View()), autoExclude, failureThreshold, reason)
      ensures r <==> !old(lb.excluded) && lb.excluded && !old(lb.reported)
      ensures lb.consecutiveFailures == old(lb.consecutiveFailures) + 1 && lb.lastError == old(lb.lastError)
    {
      ghost var l, e := lb.View(), Failure(lb.id, reason);
      hide LoadBalancer.View, Failed, FailureAlerts;
      var reachedThreshold, shouldExclude := CountFailure(lb, reason);
      r, alerts := reachedThreshold && shouldExclude, [];
      if reachedThreshold {
        alerts := [HealthEvent(lb.address, lb.excluded, reason)];
      }
      assert LinkStep(l, autoExclude, failureThreshold, e) == Failed(l, autoExclude, failureThreshold, reason);
      hide LinkStep;
      LinkStepTaken(lb, e);
    }

    // The part of a failure that happens under the mutex.
    method CountFailure(lb: LoadBalancer, reason: string) returns (reachedThreshold: bool, shouldExclude: bool)
      modifies lb
      ensures lb.View() == Failed(old(lb.View()), autoExclude, failureThreshold, reason)
      ensures lb.consecutiveFailures == old(lb.consecutiveFailures) + 1 && lb.lastError == old(lb.lastError)
      ensures var l := old(lb.View());
              && l.excluded == old(lb.excluded) && l.reported == old(lb.reported)
              && (shouldExclude <==> !l.excluded && lb.excluded)
              && FailureAlerts(l, autoExclude, failureThreshold, reason) ==
                 (if reachedThreshold then [HealthEvent(lb.address, lb.excluded, reason)] else [])
              && (shouldExclude && !l.reported ==> reachedThreshold)
              && (reachedThreshold ==> !l.reported)
    {
      lb.consecutiveFailures := lb.consecutiveFailures + 1;
      var failures := lb.consecutiveFailures;
      var threshold := failureThreshold;
      if threshold <= 0 {
        threshold := DEFAULT_FAILURE_THRESHOLD;
      }

      // One alert until the next success, excluded or not.
      reachedThreshold := failures >= threshold && !lb.reported;
      if reachedThreshold {
        lb.reported := true;
      }

      shouldExclude := autoExclude && !lb.excluded && failures >= threshold;
      if shouldExclude {
        lb.excluded := true;
        lb.excludedReason := reason;
      }
    }

    method SetLastError(lb: LoadBalancer, message: string)
      requires Valid() && lb in objects
      modifies lb
      ensures Valid() && Abs() == Step(old(Abs()), LastError(lb.id, message))
      ensures lb.View() == old(lb.View()).(lastError := message) && lb.lastError == message
      ensures lb.consecutiveFailures == old(lb.consecutiveFailures)
    {
      lb.lastError := message;
      LinkStepTaken(lb, LastError(lb.id, message));
    }

    /** A failed dial leaves a mark only if the link is at fault: nothing at all changes
        when the destination is. */
    method RecordDialFailure(lb: LoadBalancer, err: DialError) returns (alerts: seq<HealthEvent>)
      requires Valid() && lb in objects
      modifies lb
      ensures Valid() && Abs() == Run(old(Abs()), DialFailureSteps(lb.id, err))
      ensures alerts == AlertsOf(old(Abs()), Dialled(lb.id, err))
      ensures IsDestinationError(err) ==> unchanged(lb) && alerts == []
      ensures !IsDestinationError(err) ==>
                && lb.lastError == err.Message() && lb.consecutiveFailures == old(lb.consecutiveFailures) + 1
                && alerts == FailureAlerts(old(lb.View()), autoExclude, failureThreshold, err.Message())
    {
      hide *;
      ObjectInHeap(lb);
      DialAlerts(Abs(), lb.id, err);
      DialFailureRun(Abs(), lb.id, err);
      if IsDestinationError(err) {
        return [];
      }
      SetLastError(lb, err.Message());
      var _, raised := NoteFailure(lb, err.Message());
      alerts := raised;
    }

    lemma ObjectInHeap(lb: LoadBalancer)
      requires Valid() && lb in objects
      ensures lb.id < |Abs().heap| && Abs().heap[lb.id] == lb.View()
      ensures Abs().autoExclude == autoExclude && Abs().threshold == failureThreshold
    {
      var k :| 0 <= k < |objects| && objects[k] == lb;
    }

    method RecordDialSuccess(lb: LoadBalancer)
      requires Valid() && lb in objects
      modifies lb
      ensures Valid() && Abs() == Step(old(Abs()), Success(lb.id))
    {
      NoteSuccess(lb);
    }

    // ----- manual changes

    twostate lemma EarlierObjectKept(new i: nat)
      requires old(base) == base && old(objects) == objects && i < base <= |objects|
      requires unchanged(objects[..base])
      ensures objects[i].View() == old(objects[i].View())
    {
      assert objects[i] == objects[..base][i];
    }

    twostate lemma ListWritten()
      requires old(Valid()) && Valid()
      requires unchanged(`lbList, `objects, `base, `autoExclude, `failureThreshold)
      requires unchanged(objects[..base])
      ensures Abs() ==
              old(Abs()).(heap := Store(old(Abs()).heap, NewIds(base, |lbList|), Views(lbList)), cursor := lbIndex)
    {
      hide LoadBalancer.View, Wf, Store, Views, NewIds, Abs;
      var live, heap := NewIds(base, |lbList|), old(Views(objects));
      var stored := Store(heap, live, Views(lbList));
      forall i | 0 <= i < |objects| ensures Views(objects)[i] == stored[i] {
        if i < base {
          EarlierObjectKept(i);
          assert forall k :: 0 <= k < |live| ==> live[k] != i;
        } else {
          assert stored[live[i - base]] == Views(lbList)[i - base] == lbList[i - base].View();
        }
      }
    }

    // The objects of the list are numbered from `base` on, so they are all different, and
    // none of them is an earlier object.
    ghost predicate Numbered()
      reads this
    {
      forall k :: 0 <= k < |lbList| ==> lbList[k].id == base + k
    }

    lemma ListIsNumbered()
      requires Valid()
      ensures Numbered()
      ensures forall o :: o in objects[..base] ==> o !in lbList
    {
      forall k | 0 <= k < |lbList| ensures lbList[k].id == base + k {
        assert objects[base + k] == lbList[k];
      }
    }

    // Puts one excluded link back.
    method Restore(lb: LoadBalancer)
      modifies lb
      ensures lb.View() == Restored(old(lb.View())) && lb.address == old(lb.address)
    {
      lb.excluded := false;
      lb.excludedReason := "";
      lb.consecutiveFailures := 0;
    }

    // Puts one link back if it is excluded, and says so.
    method IncludeOne(lb: LoadBalancer) returns (restored: seq<HealthEvent>)
      modifies lb
      ensures lb.View() == Included(old(lb.View()))
      ensures restored == IncludeAlert(old(lb.View()))
    {
      hide Restored;
      if lb.excluded {
        Restore(lb);
        return [HealthEvent(lb.address, false, "restored manually")];
      }
      return [];
    }

    method IncludeEach() returns (restored: seq<HealthEvent>)
      requires Numbered()
      modifies lbList
      ensures Views(lbList) == AllIncluded(old(Views(lbList)))
      ensures restored == IncludeAlerts(old(Views(lbList)))
    {
      hide Included, Views, LoadBalancer.View, IncludeAlert, IncludeAlerts, AllIncluded;
      ghost var links := Views(lbList);
      restored := [];
      NoAlerts();
      for i := 0 to |lbList|
        invariant forall k :: 0 <= k < |lbList| ==>
                    lbList[k].View() == if k < i then Included(links[k]) else links[k]
        invariant restored == IncludeAlerts(links[..i])
      {
        OneMoreAlert(links, i);
        var alert := IncludeOne(lbList[i]);
        restored := restored + alert;
      }
      assert links[..|lbList|] == links;
    }

    method IncludeAll(ghost endsSetAuto: bool) returns (alerts: seq<HealthEvent>)
      requires Valid()
      modifies lbList
      ensures Valid() && Abs() == Step(old(Abs()), Event.IncludeAll(endsSetAuto))
      ensures alerts == IncludeAlerts(old(Views(lbList)))
    {
      hide LoadBalancer.View, Views, Wf, Step, Store, Abs, NewIds, AllIncluded, IncludeAlerts;
      ListIsNumbered();
      IncludeStep(Abs(), endsSetAuto);
      alerts := IncludeEach();
      ListWritten();
    }

    method SetAutoFlag(enabled: bool)
      requires Valid()
      modifies this`autoExclude
      ensures Valid() && Abs() == Step(old(Abs()), SetAuto(enabled))
    {
      hide LoadBalancer.View, Views, Wf, ListStep;
      autoExclude := enabled;
    }

    /** Turning auto-exclusion off takes two critical sections: others may run in between. */
    method SetAutoExclude(enabled: bool) returns (alerts: seq<HealthEvent>)
      requires Valid()
      modifies this`autoExclude, lbList
      ensures Valid()
      ensures Abs() == if enabled then Step(old(Abs()), SetAuto(true))
                       else Step(Step(old(Abs()), SetAuto(false)), Event.IncludeAll(true))
      ensures alerts == if enabled then [] else IncludeAlerts(old(Views(lbList)))
    {
      hide *;
      SetAutoFlag(enabled);
      if enabled {
        return [];
      }
      alerts := IncludeAll(true);
    }

    method FindAddress(address: string) returns (i: nat)
      ensures i == FirstAt(Views(lbList), address)
    {
      hide Views;
      for k := 0 to |lbList|
        invariant forall j :: 0 <= j < k ==> Views(lbList)[j].address != address
      {
        if lbList[k].address == address {
          assert Views(lbList)[k].address == address;
          return k;
        }
      }
      return |lbList|;
    }

    method SetExcluded(address: string, excluded: bool) returns (known: bool, alerts: seq<HealthEvent>)
      requires Valid()
      modifies lbList
      ensures Valid() && Abs() == Step(old(Abs()), Event.SetExcluded(address, excluded))
      ensures known <==> FirstAt(old(Views(lbList)), address) < |lbList|
      ensures alerts == if known then [HealthEvent(address, excluded, "changed manually")] else []
    {
      hide *;
      ManualStep(Abs(), address, excluded);
      LiveIds();
      var i := FindAddress(address);
      if i == |lbList| {
        return false, [];
      }
      OverrideAt(i, excluded);
      return true, [HealthEvent(address, excluded, "changed manually")];
    }

    method OverrideAt(i: nat, excluded: bool)
      requires Valid() && i < |lbList|
      modifies lbList[i]
      ensures Valid()
      ensures Abs() == old(Abs()).(heap := old(Abs()).heap[base + i := SetManually(old(Views(lbList))[i], excluded)])
    {
      hide Views, Wf, LoadBalancer.View;
      var target := lbList[i];
      assert objects[base + i] == target;
      WriteManually(target, excluded);
      ObjectWritten(target);
    }

    method WriteManually(target: LoadBalancer, excluded: bool)
      modifies target
      ensures target.View() == SetManually(old(target.View()), excluded)
    {
      target.excluded := excluded;
      target.consecutiveFailures := 0;
      if excluded {
        target.excludedReason := MANUAL_REASON;
      } else {
        target.excludedReason := "";
      }
    }

    // ----- in-flight traffic

    method CountAll(lb: LoadBalancer, sent: nat, received: nat, handled: nat)
      requires Valid() && lb in objects
      modifies lb
      ensures Valid() && Abs() == Step(old(Abs()), Tally(lb.id, sent, received, handled))
    {
      lb.bytesSent := (lb.bytesSent + sent) % COUNTER_MODULUS;
      lb.bytesReceived := (lb.bytesReceived + received) % COUNTER_MODULUS;
      lb.connectionsHandled := (lb.connectionsHandled + handled) % COUNTER_MODULUS;
      LinkStepTaken(lb, Tally(lb.id, sent, received, handled));
    }

    method CountConnection(lb: LoadBalancer)
      requires Valid() && lb in objects
      modifies lb
      ensures Valid() && Abs() == Step(old(Abs()), Tally(lb.id, 0, 0, 1))
    {
      lb.connectionsHandled := (lb.connectionsHandled + 1) % COUNTER_MODULUS;
      LinkStepTaken(lb, Tally(lb.id, 0, 0, 1));
    }

    // ----- probing the excluded links

    // First half of a pass: a copy of what has to be probed.
    method SnapshotExcluded() returns (candidates: seq<(nat, string)>)
      ensures candidates == Candidates(Views(lbList), |lbList|)
    {
      hide Views;
      candidates := [];
      for i := 0 to |lbList|
        invariant candidates == Candidates(Views(lbList), i)
      {
        assert Views(lbList)[i] == lbList[i].View();
        if lbList[i].excluded {
          candidates := candidates + [(i, lbList[i].address)];
        }
      }
    }

    /** Second half, for one candidate that answered: restores the link at its position
        only if it is still the same address. */
    method RestoreCandidate(index: nat, address: string)
      requires Valid()
      modifies lbList
      ensures Valid() && lbList == old(lbList)
      ensures Abs() == Step(old(Abs()), ProbeRestore(index, address))
    {
      hide *;
      Engine.RestoreStep(Abs(), index, address);
      AddressInView(index);
      LiveIds();
      if index < |lbList| && lbList[index].address == address {
        RestoreAt(index);
      }
    }

    lemma LiveIds()
      requires Valid()
      ensures forall k :: 0 <= k < |lbList| ==> Abs().live[k] == base + k
    {
    }

    lemma AddressInView(i: nat)
      ensures i < |lbList| ==> Views(lbList)[i].address == lbList[i].address
    {
    }

    method RestoreAt(i: nat)
      requires Valid() && i < |lbList|
      modifies lbList[i]
      ensures Valid()
      ensures Abs() == old(Abs()).(heap := old(Abs()).heap[base + i := Restored(old(Views(lbList))[i])])
    {
      hide Views, Wf, LoadBalancer.View, Restored;
      var target := lbList[i];
      assert objects[base + i] == target;
      Restore(target);
      ObjectWritten(target);
    }

    // ----- one connection in tunnel mode, among others

    // A step of somebody else on a link object.
    method PerformOnLink(e: Event)
      requires Valid() && OnLink(e) && e.id < |objects|
      modifies objects[e.id]
      ensures Valid() && Abs() == Step(old(Abs()), e)
    {
      hide Views, Wf, LoadBalancer.View, Step, Abs;
      match e
      case LastError(id, message) => SetLastError(objects[id], message);
      case Failure(id, reason) => var _, _ := NoteFailure(objects[id], reason);
      case Success(id) => NoteSuccess(objects[id]);
      case Tally(id, sent, received, handled) => CountAll(objects[id], sent, received, handled);
    }

    lemma KindsOf(e: Event)
      requires Harmless(e, |objects|, |lbList|)
      ensures !e.Swap?
      ensures OnLink(e) <==> e.LastError? || e.Failure? || e.Success? || e.Tally?
      ensures OnLink(e) ==> e.id < |objects|
      ensures e.TunnelPick? ==> SomeUntried(e.tried, |lbList|)
    {
    }

    lemma ObeysBitset(tried: nat)
      requires SomeUntried(tried, |lbList|)
      ensures Heeded(0, Some(tried), |lbList|) == tried
    {
    }

    // One critical section of somebody else.
    method Perform(e: Event)
      requires Valid() && Harmless(e, |objects|, |lbList|)
      modifies this`lbIndex, this`autoExclude, objects
      ensures Valid() && Abs() == Step(old(Abs()), e)
    {
      hide *;
      KindsOf(e);
      ListIsHeld();
      if OnLink(e) {
        PerformOnLink(e);
        return;
      }
      match e
      case Request(hasV4, hasV6) => var _ := GetLoadBalancerFor(hasV4, hasV6);
      case TunnelPick(tried) =>
        ObeysBitset(tried);
        var _, _ := GetLoadBalancer(0, Some(tried));
      case SetAuto(enabled) => SetAutoFlag(enabled);
      case IncludeAll(endsSetAuto) => var _ := IncludeAll(endsSetAuto);
      case SetExcluded(address, excluded) => var _, _ := SetExcluded(address, excluded);
      case ProbeRestore(index, address) => RestoreCandidate(index, address);
    }

    method PerformAll(es: seq<Event>)
      requires Valid() && HarmlessRun(es, |objects|, |lbList|)
      modifies this`lbIndex, this`autoExclude, objects
      ensures Valid() && Abs() == Run(old(Abs()), es)
    {
      hide *;
      ghost var s := Abs();
      NothingRun(s);
      for k := 0 to |es|
        invariant Valid() && Abs() == Run(s, es[..k])
      {
        RunOneMore(s, es[..k], es[k]);
        assert es[..k] + [es[k]] == es[..k + 1];
        HarmlessAt(es, k, |objects|, |lbList|);
        Perform(es[k]);
      }
      assert es[..|es|] == es;
    }

    lemma ListIsHeld()
      requires Valid()
      ensures forall k :: 0 <= k < |lbList| ==> lbList[k] in objects
      ensures forall o :: o in lbList ==> o in objects
      ensures CursorOk(lbIndex, |lbList|)
    {
      forall k | 0 <= k < |lbList| ensures lbList[k] in objects {
        assert lbList[k] in objects[base..];
      }
    }

    lemma CursorInList()
      requires Valid() && |lbList| > 0
      ensures lbIndex < |lbList|
    {
    }

    lemma ObjectAt(i: nat)
      requires Valid() && i < |lbList|
      ensures lbList[i] in objects && lbList[i].id == base + i
    {
      assert objects[base + i] == lbList[i];
    }

    // Without a usable bitset the pick is the link under the cursor.
    static lemma BitsetIgnored(links: seq<Link>, c: nat, seed: int, tried: Option<nat>)
      requires CursorOk(c, |links|) && SomeUntried(Heeded(seed, tried, |links|), |links|)
      ensures c < |links|
      ensures tried.None? || !(0 <= seed < |links|) ==> TunnelChoice(links, c, Heeded(seed, tried, |links|)) == c
      ensures tried.Some? && 0 <= seed < |links| ==> Heeded(seed, tried, |links|) == tried.value
    {
      hide SomeUntried, Bit, Find;
      SomeLink(Heeded(seed, tried, |links|), |links|);
      NothingToSkip(links, c);
    }

    static lemma HeededBitsets(n: nat)
      ensures Heeded(-1, None, n) == 0
      ensures forall i, bits :: 0 <= i < n ==> Heeded(i, Some(bits), n) == bits
    {
    }

    // One dial, with the others' steps meanwhile, and its record on the link.
    method DialOne(lb: LoadBalancer, outcome: Option<string>, meanwhile: seq<Event>)
      requires Valid() && lb in objects
      requires HarmlessRun(meanwhile, |objects|, |lbList|)
      modifies this`lbIndex, this`autoExclude, objects
      ensures Valid()
      ensures Abs() == Step(Run(old(Abs()), meanwhile), DialStep(lb.id, outcome))
    {
      hide *;
      DialStepGiven(lb.id, outcome);
      PerformAll(meanwhile);
      if outcome.None? {
        CountConnection(lb);
      } else {
        SetLastError(lb, outcome.value);
      }
    }

    // The next pick, after the others' steps in between.
    method PickNext(seed: int, tried: Option<nat>, meanwhile: seq<Event>, ghost bits: nat)
      returns (lb: LoadBalancer, index: nat)
      requires Valid() && bits == Heeded(seed, tried, |lbList|) && SomeUntried(bits, |lbList|)
      requires HarmlessRun(meanwhile, |objects|, |lbList|)
      modifies this`lbIndex, this`autoExclude, objects
      ensures Valid() && Abs() == Step(Run(old(Abs()), meanwhile), TunnelPick(bits))
      ensures Chosen(Run(old(Abs()), meanwhile), bits, index)
      ensures index < |lbList| && lb == lbList[index] && lb in objects && lb.id == base + index
      ensures Bit(bits, index) == 0
    {
      hide *;
      PerformAll(meanwhile);
      ListIsHeld();
      ChoiceHere(bits);
      lb, index := GetLoadBalancer(seed, tried);
    }

    // What a pick finds, on the list and in the state.
    lemma ChoiceHere(bits: nat)
      requires Valid() && SomeUntried(bits, |lbList|)
      ensures CursorOk(lbIndex, |lbList|) && |lbList| > 0
      ensures Chosen(Abs(), bits, TunnelChoice(Views(lbList), lbIndex, bits))
    {
      hide TunnelChoice, Views, LoadBalancer.View, SomeUntried;
      SomeLink(bits, |lbList|);
    }

    // After a failure: marks the link on a bitset made on first use and, unless that
    // completes it, picks another link.
    method TryNext(i: nat, tried: Option<nat>, complete: bool, dialled: seq<nat>, meanwhile: seq<Event>)
      returns (tried': Option<nat>, complete': bool, lb': LoadBalancer?, i': nat)
      requires Valid() && Distinct(dialled, |lbList|) && dialled != [] && i == dialled[|dialled| - 1]
      requires complete <==> |lbList| == 1
      requires tried == BitsBefore(dialled)
      requires HarmlessRun(meanwhile, |objects|, |lbList|)
      modifies this`lbIndex, this`autoExclude, objects
      ensures Valid() && (complete' <==> |dialled| == |lbList|)
      ensures complete' ==> Abs() == old(Abs())
      ensures !complete' ==>
                && Abs() == Step(Run(old(Abs()), meanwhile), TunnelPick(Tried(dialled)))
                && Chosen(Run(old(Abs()), meanwhile), Tried(dialled), i')
                && tried' == Some(Tried(dialled)) && |lbList| != 1
                && i' < |lbList| && lb' != null && lb' in objects && lb'.id == base + i'
                && Distinct(dialled + [i'], |lbList|) && |dialled| < |lbList|
    {
      hide *;
      LastMarked(dialled, |lbList|);
      HeededBitsets(|lbList|);
      tried', complete', lb', i' := tried, complete, null, i;
      if !complete' && tried' == None {
        tried' := Some(0);
      }
      if !complete' {
        tried' := Some(SetBit(tried'.value, i));
        assert tried' == Some(Tried(dialled));
        complete' := And(tried'.value, Mask(|lbList|)) == Mask(|lbList|);
      }
      if !complete' {
        assert i < |lbList| by { LastInRange(dialled, |lbList|); }
        lb', i' := PickNext(i, tried', meanwhile, Tried(dialled));
        NewToDialled(dialled, i', |lbList|);
      }
    }

    // The state while the last link of `dialled` is being dialled.
    ghost predicate Dialling(s: State, lb: LoadBalancer, dialled: seq<nat>, tried: Option<nat>, complete: bool,
                             dial: Dial, others: Others)
      requires Wf(s)
      reads this, objects
    {
      && Valid() && dialled != [] && Distinct(dialled, |lbList|) && FailedBefore(dialled, dial)
      && lb in objects && lb.id == base + dialled[|dialled| - 1]
      && tried == BitsBefore(dialled) && (complete <==> |lbList| == 1)
      && Abs() == Run(s, UpToPick(base, dialled, dial, others))
      && PickedInTurn(s, base, dialled, dial, others)
    }

    lemma DiallingMeans(s: State, lb: LoadBalancer, dialled: seq<nat>, tried: Option<nat>, complete: bool,
                        dial: Dial, others: Others)
      requires Wf(s)
      ensures Dialling(s, lb, dialled, tried, complete, dial, others) <==>
                && Valid() && dialled != [] && Distinct(dialled, |lbList|) && FailedBefore(dialled, dial)
                && lb in objects && lb.id == base + dialled[|dialled| - 1]
                && tried == BitsBefore(dialled) && (complete <==> |lbList| == 1)
                && Abs() == Run(s, UpToPick(base, dialled, dial, others))
                && PickedInTurn(s, base, dialled, dial, others)
    {
      hide Valid, Abs, Wf, Distinct, FailedBefore, BitsBefore, Run, UpToPick, PickedInTurn;
    }

    // One dial, its record, and the next pick unless the link answered or was the last.
    method Attempt(lb: LoadBalancer, i: nat, tried: Option<nat>, complete: bool, dialled: seq<nat>,
                   dial: Dial, others: Others, ghost s: State)
      returns (answered: bool, tried': Option<nat>, complete': bool, lb': LoadBalancer?, i': nat)
      requires Wf(s) && Dialling(s, lb, dialled, tried, complete, dial, others) && i == dialled[|dialled| - 1]
      requires AllHarmless(others, |objects|, |lbList|)
      modifies this`lbIndex, this`autoExclude, objects
      ensures Valid()
      ensures answered || complete' ==> Abs() == Run(s, TunnelRun(base, dialled, dial, others))
      ensures answered ==> OnlyLastAnswered(dialled, dial)
      ensures !answered && complete' ==> AllFailed(dialled, dial) && |dialled| == |lbList|
      ensures !answered && !complete' ==>
                |dialled| < |lbList| && lb' != null &&
                Dialling(s, lb', dialled + [i'], tried', complete', dial, others)
    {
      hide *;
      DiallingMeans(s, lb, dialled, tried, complete, dial, others);
      ghost var t := Abs();
      var m := |dialled| - 1;
      LastOutcome(dialled, dial);
      AnyMoment(others, |objects|, |lbList|);
      answered, tried', complete', lb', i' := false, tried, complete, lb, i;
      var outcome := dial(m, i);
      DialOne(lb, outcome, others.during(|dialled|));
      ghost var u := Abs();
      RunEnds(s, t, u, base, dialled, dial, others);
      if outcome.None? {
        answered := true;
        return;
      }
      tried', complete', lb', i' := TryNext(i, tried, complete, dialled, others.between(|dialled|));
      if !complete' {
        RunGoesOn(s, u, Abs(), base, dialled, i', dial, others);
        NextPickState(s, u, base, dialled, dial, others);
        NextInTurn(s, base, dialled, i', dial, others);
        NextDialled(dialled, i', dial);
        DiallingMeans(s, lb', dialled + [i'], tried', complete', dial, others);
      }
    }

    /** A connection in tunnel mode, with everybody else's steps in between: `dial` says
        which dials fail, `others` what the others do at each moment. It dials different
        links, at most as many as there are, each the nearest to the cursor of those left when
        it was picked, and gives up only when every one failed. */
    method HandleTunnelConnection(dial: Dial, others: Others)
      returns (dialled: seq<nat>, served: Option<nat>)
      requires Valid() && lbList != []
      requires AllHarmless(others, |objects|, |lbList|)
      modifies this`lbIndex, this`autoExclude, objects
      ensures Valid() && lbList == old(lbList)
      ensures dialled != [] && Ended(dialled, served, dial, |lbList|)
      ensures PickedInTurn(old(Abs()), base, dialled, dial, others)
      ensures Abs() == Run(old(Abs()), TunnelRun(base, dialled, dial, others))
    {
      hide *;
      ghost var s, n := Abs(), |lbList|;
      var lb: LoadBalancer?, i := FirstPick(dial, others);
      var tried: Option<nat>, complete := None, 1 == |lbList|;
      dialled := [i];
      while true
        invariant Valid() && lbList == old(lbList) && lb != null
        invariant Dialling(s, lb, dialled, tried, complete, dial, others)
        invariant dialled != [] && i == dialled[|dialled| - 1]
        decreases n - |dialled|
      {
        DiallingMeans(s, lb, dialled, tried, complete, dial, others);
        var answered;
        answered, tried, complete, lb, i := Attempt(lb, i, tried, complete, dialled, dial, others, s);
        if answered {
          EndsServed(dialled, dial, n);
          return dialled, Some(dialled[|dialled| - 1]);
        }
        if complete {
          EndsFailed(dialled, dial, n);
          return dialled, None;
        }
        dialled := dialled + [i];
      }
    }

    method FirstPick(ghost dial: Dial, ghost others: Others) returns (lb: LoadBalancer, i: nat)
      requires Valid() && lbList != []
      modifies this`lbIndex, this`autoExclude, objects
      ensures Valid() && Dialling(old(Abs()), lb, [i], None, |lbList| == 1, dial, others)
    {
      hide *;
      ghost var s, n := Abs(), |lbList|;
      StartsUntried(n);
      NothingTried();
      HeededBitsets(n);
      NothingRun(s);
      NothingHappens(|objects|, n);
      lb, i := PickNext(-1, None, [], 0);
      RunsFromStart(s, base, i, dial, others);
      FirstInTurn(s, base, i, dial, others);
      NewToDialled([], i, n);
      FirstDialled(i, dial);
      DiallingMeans(s, lb, [i], None, n == 1, dial, others);
    }

    // ----- a probing pass, among others

    // Any step of anybody; objects that come into play are new.
    method PerformAny(e: Event)
      requires Valid() && Enabled(Abs(), e)
      modifies this, objects
      ensures Valid() && Abs() == Step(old(Abs()), e)
      ensures forall j :: 0 <= j < |objects| ==> objects[j] in old(objects) || fresh(objects[j])
    {
      hide *;
      EnabledHere(e);
      if e.Swap? {
        var ok := UpdateLoadBalancers(e.next);
      } else {
        Perform(e);
      }
    }

    lemma EnabledHere(e: Event)
      requires Valid() && Enabled(Abs(), e)
      ensures !e.Swap? ==> Harmless(e, |objects|, |lbList|)
      ensures e.Swap? ==> e.next != []
    {
    }

    method PerformRun(es: seq<Event>)
      requires Valid() && Legal(Abs(), es)
      modifies this, objects
      ensures Valid() && Abs() == Run(old(Abs()), es)
      ensures forall j :: 0 <= j < |objects| ==> objects[j] in old(objects) || fresh(objects[j])
    {
      hide *;
      ghost var s := Abs();
      NothingRun(s);
      for k := 0 to |es|
        invariant Valid() && Abs() == Run(s, es[..k])
        invariant forall j :: 0 <= j < |objects| ==> objects[j] in old(objects) || fresh(objects[j])
      {
        LegalAt(s, es, k);
        RunOneMore(s, es[..k], es[k]);
        assert es[..k] + [es[k]] == es[..k + 1];
        PerformAny(es[k]);
      }
      assert es[..|es|] == es;
    }

    // One candidate: what the others do while it is probed, and its restore if it answers.
    method ProbeOne(index: nat, address: string, answers: bool, meanwhile: seq<Event>) returns (alert: seq<HealthEvent>)
      requires Valid() && Legal(Abs(), meanwhile)
      modifies this, objects
      ensures Valid()
      ensures Abs() == if answers then Step(Run(old(Abs()), meanwhile), ProbeRestore(index, address))
                       else Run(old(Abs()), meanwhile)
      ensures alert == if answers then [HealthEvent(address, false, "responding again")] else []
      ensures forall j :: 0 <= j < |objects| ==> objects[j] in old(objects) || fresh(objects[j])
    {
      hide *;
      PerformRun(meanwhile);
      if !answers {
        return [];
      }
      ListIsHeld();
      RestoreCandidate(index, address);
      return [HealthEvent(address, false, "responding again")];
    }

    /** A probing pass. `answers` says which probes succeed, `cancelled` at which candidates
        the pass finds itself cancelled, and `others` what everybody else does meanwhile:
        anything, list swaps included. */
    method ProbeExcluded(answers: Answers, cancelled: nat -> bool, others: Meanwhile) returns (alerts: seq<HealthEvent>)
      requires Valid()
      requires var candidates := Candidates(Views(lbList), |lbList|);
               Legal(Abs(), PassUpTo(candidates, answers, others, Reach(cancelled, |candidates|)))
      modifies this, objects
      ensures Valid()
      ensures var candidates := Candidates(old(Views(lbList)), |old(lbList)|);
              var m := Reach(cancelled, |candidates|);
              && Abs() == Run(old(Abs()), PassUpTo(candidates, answers, others, m))
              && alerts == AlertsUpTo(candidates, answers, m)
    {
      hide *;
      ghost var s := Abs();
      var candidates := SnapshotExcluded();
      ghost var m := Reach(cancelled, |candidates|);
      alerts := [];
      PassStarts(candidates, answers, others);
      NothingRun(s);
      for k := 0 to |candidates|
        invariant Valid() && k <= m
        invariant forall j :: 0 <= j < |objects| ==> objects[j] in old(objects) || fresh(objects[j])
        invariant Abs() == Run(s, PassUpTo(candidates, answers, others, k))
        invariant alerts == AlertsUpTo(candidates, answers, k)
      {
        if cancelled(k) {
          assert k == m;
          return;
        }
        ReachGoesOn(cancelled, |candidates|, k);
        OthersAreLegal(s, candidates, answers, others, m, k);
        PassRunOneMore(s, candidates, answers, others, k);
        PassOneMore(candidates, answers, others, k);
        var (index, address) := candidates[k];
        var alert := ProbeOne(index, address, answers(index), others(k));
        alerts := alerts + alert;
      }
    }

    // ----- replacing the list

    // One more link looked at.
    static lemma LastAtGrows(links: seq<Link>, i: nat)
      requires i < |links|
      ensures forall a :: LastAt(links[..i + 1], a) ==
                if links[i].address == a then i
                else if LastAt(links[..i], a) == i then i + 1 else LastAt(links[..i], a)
    {
      assert links[..i + 1][..i] == links[..i];
      assert |links[..i + 1]| == i + 1 && links[..i + 1][i] == links[i];
    }

    // The last link at each address.
    method IndexByAddress() returns (previous: map<string, LoadBalancer>)
      ensures forall a :: a in previous <==> LastAt(Views(lbList), a) < |lbList|
      ensures forall a :: a in previous ==> previous[a] == lbList[LastAt(Views(lbList), a)]
    {
      hide Views, LastAt, LoadBalancer.View;
      ghost var links := Views(lbList);
      previous := map[];
      for i := 0 to |lbList|
        invariant Indexed(previous, links, i)
      {
        assert lbList[i].address == links[i].address by { AddressInView(i); }
        OneMoreIndexed(previous, links, i);
        previous := previous[lbList[i].address := lbList[i]];
      }
      assert links[..|lbList|] == links;
    }

    // The map holds the last object among the first i links at each of their addresses.
    ghost predicate Indexed(previous: map<string, LoadBalancer>, links: seq<Link>, i: nat)
      requires i <= |links| == |lbList|
      reads this`lbList
    {
      forall a ::
        && (a in previous <==> LastAt(links[..i], a) < i)
        && (a in previous ==> previous[a] == lbList[LastAt(links[..i], a)])
    }

    lemma OneMoreIndexed(previous: map<string, LoadBalancer>, links: seq<Link>, i: nat)
      requires i < |links| == |lbList| && Indexed(previous, links, i)
      ensures Indexed(previous[links[i].address := lbList[i]], links, i + 1)
    {
      hide LastAt;
      LastAtGrows(links, i);
    }

    // The new objects: the supplied links, with the record of the old link at the same
    // address copied in.
    method BuildNext(lbs: seq<Link>, previous: map<string, LoadBalancer>, ghost from: Id)
      returns (next: seq<LoadBalancer>)
      ensures fresh(next) && |next| == |lbs|
      ensures forall k :: 0 <= k < |next| ==> next[k].id == from + k
      ensures forall k :: 0 <= k < |next| ==>
                next[k].View() == if lbs[k].address in previous
                                  then CarriedOver(previous[lbs[k].address].View(), lbs[k]) else lbs[k]
    {
      hide LoadBalancer.View;
      next := [];
      for i := 0 to |lbs|
        invariant |next| == i && fresh(next)
        invariant forall k :: 0 <= k < i ==> next[k].id == from + k
        invariant forall k :: 0 <= k < i ==>
                    next[k].View() == if lbs[k].address in previous
                                      then CarriedOver(previous[lbs[k].address].View(), lbs[k]) else lbs[k]
      {
        var lb := new LoadBalancer(lbs[i], from + i);
        if lbs[i].address in previous {
          TakeOver(lb, previous[lbs[i].address]);
        }
        next := next + [lb];
      }
    }

    static method TakeOver(lb: LoadBalancer, previous: LoadBalancer)
      requires lb != previous
      modifies lb
      ensures lb.View() == CarriedOver(previous.View(), old(lb.View()))
    {
      lb.bytesSent := previous.bytesSent;
      lb.bytesReceived := previous.bytesReceived;
      lb.connectionsHandled := previous.connectionsHandled;
      lb.lastError := previous.lastError;
      lb.excluded := previous.excluded;
      lb.excludedReason := previous.excludedReason;
      lb.consecutiveFailures := previous.consecutiveFailures;
    }

    method PrepareNext(lbs: seq<Link>, ghost from: Id) returns (next: seq<LoadBalancer>)
      ensures fresh(next) && Views(next) == Carried(Views(lbList), lbs)
      ensures forall k :: 0 <= k < |next| ==> next[k].id == from + k
    {
      hide LoadBalancer.View, Views, LastAt, CarriedOver;
      var previous := IndexByAddress();
      next := BuildNext(lbs, previous, from);
    }

    // Puts the new objects in place of the list, keeping every old object.
    method Install(next: seq<LoadBalancer>)
      requires Valid() && next != []
      requires forall k :: 0 <= k < |next| ==> next[k].id == |objects| + k
      modifies this`lbList, this`lbIndex, this`objects, this`base
      ensures Valid() && lbList == next && objects == old(objects) + next
      ensures Abs() ==
              State(old(Abs()).heap + Views(next), NewIds(|old(objects)|, |next|), 0, autoExclude, failureThreshold)
    {
      hide LoadBalancer.View, Views, Wf, NewIds;
      ghost var heap := Abs().heap;
      objects, base := objects + next, |objects|;
      lbList, lbIndex := next, 0;
      assert objects[base..] == next;
      assert Views(objects) == heap + Views(next);
    }

    /** Swaps the list for one on new objects, rejecting an empty one. The old objects are
        not touched: connections that hold them go on using them. */
    method UpdateLoadBalancers(lbs: seq<Link>) returns (ok: bool)
      requires Valid()
      modifies this`lbList, this`lbIndex, this`objects, this`base
      ensures Valid() && (ok <==> lbs != [])
      ensures Abs() == Step(old(Abs()), Swap(lbs))
      ensures ok ==> fresh(lbList) && objects == old(objects) + lbList
    {
      hide *;
      ghost var s := Abs();
      SwapStep(s, lbs);
      if |lbs| == 0 {
        return false;
      }
      Replace(lbs, s);
      return true;
    }

    twostate lemma StateKept()
      requires old(Valid()) && unchanged(this) && unchanged(objects)
      ensures Valid() && Abs() == old(Abs())
    {
    }

    // Builds the new objects and puts them in place.
    method Replace(lbs: seq<Link>, ghost s: State)
      requires Valid() && lbs != [] && s == Abs()
      modifies this`lbList, this`lbIndex, this`objects, this`base
      ensures Valid() && fresh(lbList) && objects == old(objects) + lbList
      ensures Abs() ==
              State(s.heap + Carried(LiveLinks(s), lbs), NewIds(|s.heap|, |lbs|), 0, s.autoExclude, s.threshold)
    {
      hide *;
      var next := PrepareNext(lbs, |objects|);
      StateKept();
      assert |next| == |lbs|;
      Install(next);
    }
  }
}
