/**
The dispatch engine as a state machine over its critical sections. The heap holds every
link object ever made live; the live list names some of them, and in-flight connections
may hold on to any of them. Each event is one section under the dispatcher's mutex (or
one atomic addition), so every interleaving of connections, health probes, manual
changes and list swaps is a sequence of events. The class `Dispatcher` shows that the
original's methods perform exactly these steps.
*/
module Engine {
  import opened Links
  import opened Scheduling
  import opened TunnelScheduling

  type Id = nat

  datatype State = State(heap: seq<Link>, live: seq<Id>, cursor: nat, autoExclude: bool, threshold: int)

  datatype Event =
    | Request(hasV4: bool, hasV6: bool)
    | TunnelPick(tried: nat)
    | LastError(id: Id, message: string)
    | Failure(id: Id, reason: string)
    | Success(id: Id)
    | Tally(id: Id, sent: nat, received: nat, handled: nat)
    | SetAuto(enabled: bool)
    | IncludeAll(endsSetAuto: bool)  // whether this is the second half of SetAutoExclude(false)
    | SetExcluded(address: string, excluded: bool)
    | ProbeRestore(index: nat, address: string)
    | Swap(next: seq<Link>)

  // A step of an in-flight connection on the link object it was given.
  predicate OnLink(e: Event) {
    e.LastError? || e.Failure? || e.Success? || e.Tally?
  }

  ghost predicate Wf(s: State) {
    && (forall k :: 0 <= k < |s.live| ==> s.live[k] < |s.heap|)
    && (forall j, k :: 0 <= j < k < |s.live| ==> s.live[j] != s.live[k])
    && CursorOk(s.cursor, |s.live|)
  }

  ghost function LiveLinks(s: State): (r: seq<Link>)
    requires Wf(s)
    ensures |r| == |s.live|
    ensures forall k :: 0 <= k < |r| ==> r[k] == s.heap[s.live[k]]
  {
    seq(|s.live|, k requires 0 <= k < |s.live| => s.heap[s.live[k]])
  }

  // Every live link is short of its ratio.
  ghost predicate Balanced(s: State)
    requires Wf(s)
  {
    forall k :: 0 <= k < |s.live| ==> LiveLinks(s)[k].InTurn()
  }

  // ----- the steps

  // The heap after the live links have been given new values.
  ghost function Store(heap: seq<Link>, live: seq<Id>, links: seq<Link>): (r: seq<Link>)
    requires |live| == |links|
    requires forall k :: 0 <= k < |live| ==> live[k] < |heap|
    requires forall j, k :: 0 <= j < k < |live| ==> live[j] != live[k]
    ensures |r| == |heap|
    ensures forall k :: 0 <= k < |live| ==> r[live[k]] == links[k]
    ensures forall id :: 0 <= id < |heap| && id !in live ==> r[id] == heap[id]
  {
    if live == [] then heap
    else
      var m := |live| - 1;
      Store(heap, live[..m], links[..m])[live[m] := links[m]]
  }

  // The first and the last position of an address, or the length.
  function FirstAt(links: seq<Link>, address: string): (i: nat)
    ensures i <= |links|
    ensures i < |links| ==> links[i].address == address
    ensures forall k :: 0 <= k < i ==> links[k].address != address
  {
    if links == [] || links[0].address == address then 0 else 1 + FirstAt(links[1..], address)
  }

  function LastAt(links: seq<Link>, address: string): (i: nat)
    ensures i <= |links|
    ensures i < |links| ==> links[i].address == address
    ensures forall k :: 0 <= k < |links| && (i < k || i == |links|) ==> links[k].address != address
  {
    if links == [] then 0
    else
      var m := |links| - 1;
      if links[m].address == address then m
      else
        var i := LastAt(links[..m], address);
        if i == m then |links| else i
  }

  ghost function AllIncluded(links: seq<Link>): (r: seq<Link>)
    ensures |r| == |links| && forall k :: 0 <= k < |r| ==> r[k] == Included(links[k])
  {
    seq(|links|, k requires 0 <= k < |links| => Included(links[k]))
  }

  ghost function ManuallySet(links: seq<Link>, address: string, excluded: bool): (r: seq<Link>)
    ensures |r| == |links|
  {
    var i := FirstAt(links, address);
    if i < |links| then links[i := SetManually(links[i], excluded)] else links
  }

  ghost function ProbeRestored(links: seq<Link>, i: nat, address: string): (r: seq<Link>)
    ensures |r| == |links|
  {
    if i < |links| && links[i].address == address then links[i := Restored(links[i])] else links
  }

  // The new list, with the record of the last old link at each address carried over.
  ghost function Carried(links: seq<Link>, next: seq<Link>): (r: seq<Link>)
    ensures |r| == |next|
    ensures forall k :: 0 <= k < |next| ==>
              var o := LastAt(links, next[k].address);
              r[k] == if o < |links| then CarriedOver(links[o], next[k]) else next[k]
  {
    seq(|next|, k requires 0 <= k < |next| =>
      var o := LastAt(links, next[k].address);
      if o < |links| then CarriedOver(links[o], next[k]) else next[k])
  }

  ghost function NewIds(from: Id, n: nat): (r: seq<Id>)
    ensures |r| == n && forall k :: 0 <= k < n ==> r[k] == from + k
  {
    seq(n, k requires 0 <= k < n => from + k)
  }

  ghost predicate Enabled(s: State, e: Event) {
    && (OnLink(e) ==> e.id < |s.heap|)
    && (e.TunnelPick? ==> SomeUntried(e.tried, |s.live|))
    && (e.Swap? ==> e.next != [])
  }

  // The live links and the cursor after an event that works on the live list.
  ghost function ListStep(links: seq<Link>, c: nat, e: Event): (r: (seq<Link>, nat))
    requires CursorOk(c, |links|)
    requires e.TunnelPick? ==> SomeUntried(e.tried, |links|)
    ensures |r.0| == |links| && CursorOk(r.1, |links|)
  {
    match e
    case Request(hasV4, hasV6) => AfterChoice(links, c, Choose(links, c, hasV4, hasV6))
    case TunnelPick(tried) => AfterTunnelPick(links, c, tried)
    case IncludeAll(_) => (AllIncluded(links), c)
    case SetExcluded(address, excluded) => (ManuallySet(links, address, excluded), c)
    case ProbeRestore(i, address) => (ProbeRestored(links, i, address), c)
    case _ => (links, c)
  }

  // The link object of an in-flight connection after one of its steps.
  ghost function LinkStep(l: Link, autoExclude: bool, threshold: int, e: Event): Link {
    match e
    case LastError(_, message) => l.(lastError := message)
    case Failure(_, reason) => Failed(l, autoExclude, threshold, reason)
    case Success(_) => Succeeded(l)
    case Tally(_, sent, received, handled) => Tallied(l, sent, received, handled)
    case _ => l
  }

  ghost function Step(s: State, e: Event): (s': State)
    requires Wf(s)
    ensures Wf(s')
  {
    if !Enabled(s, e) then s
    else if OnLink(e) then s.(heap := s.heap[e.id := LinkStep(s.heap[e.id], s.autoExclude, s.threshold, e)])
    else if e.SetAuto? then s.(autoExclude := e.enabled)
    else if e.Swap? then
      s.(heap := s.heap + Carried(LiveLinks(s), e.next), live := NewIds(|s.heap|, |e.next|), cursor := 0)
    else
      var (links, c) := ListStep(LiveLinks(s), s.cursor, e);
      s.(heap := Store(s.heap, s.live, links), cursor := c)
  }

  ghost function Front(es: seq<Event>): seq<Event>
    requires es != []
  {
    es[..|es| - 1]
  }

  ghost function Last(es: seq<Event>): Event
    requires es != []
  {
    es[|es| - 1]
  }

  ghost function Run(s: State, es: seq<Event>): (s': State)
    requires Wf(s)
    ensures Wf(s')
  {
    if es == [] then s else Step(Run(s, Front(es)), Last(es))
  }

  // Every event of the run could happen when it did.
  ghost predicate Legal(s: State, es: seq<Event>)
    requires Wf(s)
  {
    es == [] || (Legal(s, Front(es)) && Enabled(Run(s, Front(es)), Last(es)))
  }

  lemma NothingRun(s: State)
    requires Wf(s)
    ensures Run(s, []) == s
  {
  }

  lemma {:induction false} RunOneMore(s: State, es: seq<Event>, e: Event)
    requires Wf(s)
    ensures Run(s, es + [e]) == Step(Run(s, es), e)
    ensures Legal(s, es) && Enabled(Run(s, es), e) ==> Legal(s, es + [e])
  {
    assert Front(es + [e]) == es;
  }

  lemma {:induction false} LegalAt(s: State, es: seq<Event>, k: nat)
    requires Wf(s) && Legal(s, es) && k < |es|
    ensures Legal(s, es[..k]) && Enabled(Run(s, es[..k]), es[k])
  {
    hide Run, Enabled;
    if k < |es| - 1 {
      LegalAt(s, Front(es), k);
      assert Front(es)[..k] == es[..k];
    }
  }

  lemma {:induction false} RunConcat(s: State, es: seq<Event>, fs: seq<Event>)
    requires Wf(s)
    ensures Run(s, es + fs) == Run(Run(s, es), fs)
  {
    hide Step;
    if fs == [] {
      assert es + fs == es;
    } else {
      RunConcat(s, es, Front(fs));
      RunOneMore(s, es + Front(fs), Last(fs));
      assert es + fs == es + Front(fs) + [Last(fs)];
    }
  }

  // ----- what a step does to the live list

  // Position of a live id, or the length.
  ghost function PositionOf(live: seq<Id>, id: Id): (i: nat)
    ensures i <= |live|
    ensures i < |live| <==> id in live
    ensures i < |live| ==> live[i] == id
  {
    if live == [] || live[0] == id then 0 else 1 + PositionOf(live[1..], id)
  }

  lemma LiveAfterLinkStep(s: State, e: Event)
    requires Wf(s) && Enabled(s, e) && OnLink(e)
    ensures var i := PositionOf(s.live, e.id);
            LiveLinks(Step(s, e)) ==
            if i < |s.live| then LiveLinks(s)[i := LinkStep(LiveLinks(s)[i], s.autoExclude, s.threshold, e)]
            else LiveLinks(s)
  {
  }

  lemma LinkStepWrites(s: State, e: Event)
    requires Wf(s) && OnLink(e) && e.id < |s.heap|
    ensures Step(s, e) == s.(heap := s.heap[e.id := LinkStep(s.heap[e.id], s.autoExclude, s.threshold, e)])
  {
  }

  lemma LiveAfterListStep(s: State, e: Event)
    requires Wf(s) && Enabled(s, e) && !OnLink(e) && !e.Swap?
    ensures var s' := Step(s, e);
            && s'.live == s.live
            && (LiveLinks(s'), s'.cursor) == ListStep(LiveLinks(s), s.cursor, e)
  {
    var (links, c) := ListStep(LiveLinks(s), s.cursor, e);
    assert LiveLinks(Step(s, e)) == links;
  }

  lemma ObjectAfterListStep(s: State, e: Event, p: Id)
    requires Wf(s) && Enabled(s, e) && !OnLink(e) && !e.SetAuto? && !e.Swap? && p < |s.heap|
    ensures Step(s, e).live == s.live && p < |Step(s, e).heap|
    ensures Step(s, e).autoExclude == s.autoExclude && Step(s, e).threshold == s.threshold
    ensures p !in s.live ==> Step(s, e).heap[p] == s.heap[p]
    ensures p in s.live ==>
              Step(s, e).heap[p] == ListStep(LiveLinks(s), s.cursor, e).0[PositionOf(s.live, p)]
  {
  }

  // Storing one changed link is a write to its object.
  lemma {:induction false} StoreOne(heap: seq<Link>, live: seq<Id>, links: seq<Link>, i: nat, l: Link)
    requires |live| == |links| && i < |live|
    requires forall k :: 0 <= k < |live| ==> live[k] < |heap| && heap[live[k]] == links[k]
    requires forall j, k :: 0 <= j < k < |live| ==> live[j] != live[k]
    ensures Store(heap, live, links[i := l]) == heap[live[i] := l]
    ensures Store(heap, live, links) == heap
  {
    forall id | 0 <= id < |heap|
      ensures Store(heap, live, links[i := l])[id] == heap[live[i] := l][id]
      ensures Store(heap, live, links)[id] == heap[id]
    {
      if id in live {
        var k :| 0 <= k < |live| && live[k] == id;
      }
    }
  }

  lemma StepIsListStep(s: State, e: Event)
    requires Wf(s) && Enabled(s, e) && !OnLink(e) && !e.SetAuto? && !e.Swap?
    ensures var (links, c) := ListStep(LiveLinks(s), s.cursor, e);
            Step(s, e) == s.(heap := Store(s.heap, s.live, links), cursor := c)
  {
  }

  // A list step that leaves all links but one alone writes one object.
  lemma StepWritesOne(s: State, e: Event, i: nat, l: Link, c: nat)
    requires Wf(s) && Enabled(s, e) && !OnLink(e) && !e.SetAuto? && !e.Swap? && i < |s.live|
    requires ListStep(LiveLinks(s), s.cursor, e) == (LiveLinks(s)[i := l], c)
    ensures Step(s, e) == s.(heap := s.heap[s.live[i] := l], cursor := c)
  {
    hide Step, ListStep, Store;
    StepIsListStep(s, e);
    StoreOne(s.heap, s.live, LiveLinks(s), i, l);
  }

  lemma StepWritesNone(s: State, e: Event, c: nat)
    requires Wf(s) && Enabled(s, e) && !OnLink(e) && !e.SetAuto? && !e.Swap?
    requires ListStep(LiveLinks(s), s.cursor, e) == (LiveLinks(s), c)
    ensures Step(s, e) == s.(cursor := c)
  {
    hide Step, ListStep;
    StepIsListStep(s, e);
    if s.live != [] {
      hide Store;
      StoreOne(s.heap, s.live, LiveLinks(s), 0, LiveLinks(s)[0]);
    }
  }

  /** A manual change writes the first link at the address, if there is one. */
  lemma ManualStep(s: State, address: string, excluded: bool)
    requires Wf(s)
    ensures var i := FirstAt(LiveLinks(s), address);
            Step(s, SetExcluded(address, excluded)) ==
            if i < |s.live| then s.(heap := s.heap[s.live[i] := SetManually(LiveLinks(s)[i], excluded)]) else s
  {
    hide Step, SetManually;
    var links, i := LiveLinks(s), FirstAt(LiveLinks(s), address);
    if i < |s.live| {
      StepWritesOne(s, SetExcluded(address, excluded), i, SetManually(links[i], excluded), s.cursor);
    } else {
      StepWritesNone(s, SetExcluded(address, excluded), s.cursor);
    }
  }

  lemma IncludeStep(s: State, endsSetAuto: bool)
    requires Wf(s)
    ensures Step(s, IncludeAll(endsSetAuto)) == s.(heap := Store(s.heap, s.live, AllIncluded(LiveLinks(s))))
  {
    hide Step, AllIncluded, Store;
    StepIsListStep(s, IncludeAll(endsSetAuto));
  }

  /** A probe's answer writes the link at its position, if that still has the address. */
  lemma RestoreStep(s: State, i: nat, address: string)
    requires Wf(s)
    ensures Step(s, ProbeRestore(i, address)) ==
            if i < |s.live| && LiveLinks(s)[i].address == address
            then s.(heap := s.heap[s.live[i] := Restored(LiveLinks(s)[i])]) else s
  {
    hide Step, Restored;
    var links := LiveLinks(s);
    if i < |s.live| && links[i].address == address {
      StepWritesOne(s, ProbeRestore(i, address), i, Restored(links[i]), s.cursor);
    } else {
      StepWritesNone(s, ProbeRestore(i, address), s.cursor);
    }
  }

  lemma SwapStep(s: State, next: seq<Link>)
    requires Wf(s)
    ensures Step(s, Swap(next)) ==
            if next == [] then s
            else State(s.heap + Carried(LiveLinks(s), next), NewIds(|s.heap|, |next|), 0, s.autoExclude, s.threshold)
  {
  }

  // The link under the cursor is served in rotation.
  ghost function TurnAtCursor(s: State): State
    requires Wf(s) && s.cursor < |s.live|
  {
    var l := LiveLinks(s)[s.cursor];
    s.(heap := s.heap[s.live[s.cursor] := Counted(l)], cursor := TurnCursor(l, s.cursor, |s.live|))
  }

  /** A request by what its scan finds: it writes at most one object, and the cursor. */
  lemma RequestStep(s: State, hasV4: bool, hasV6: bool)
    requires Wf(s)
    ensures var links, c, n := LiveLinks(s), s.cursor, |s.live|;
            var e, u := Find(Eligible(links, hasV4, hasV6), c), Find(Usable(links, hasV4, hasV6), c);
            && (e < n ==>
                  && Choose(links, c, hasV4, hasV6) == InRotation(At(c, e, n))
                  && Step(s, Request(hasV4, hasV6)) == TurnAtCursor(s.(cursor := At(c, e, n))))
            && (e == n && u < n ==>
                  && Choose(links, c, hasV4, hasV6) == Fallback(At(c, u, n))
                  && Step(s, Request(hasV4, hasV6)) == s.(cursor := Next(At(c, u, n), n)))
            && (e == n == u ==>
                  && Choose(links, c, hasV4, hasV6) == NoCompatible
                  && Step(s, Request(hasV4, hasV6)) == s)
  {
    hide Step, Find, Eligible, Usable;
    var links, c, n, request := LiveLinks(s), s.cursor, |s.live|, Request(hasV4, hasV6);
    match Choose(links, c, hasV4, hasV6)
    case InRotation(i) => StepWritesOne(s, request, i, Counted(links[i]), AfterTurn(links, i).1);
    case Fallback(i) => StepWritesNone(s, request, Next(i, n));
    case NoCompatible => StepWritesNone(s, request, c);
  }

  lemma LiveAfterSwap(s: State, next: seq<Link>)
    requires Wf(s) && next != []
    ensures LiveLinks(Step(s, Swap(next))) == Carried(LiveLinks(s), next)
    ensures Step(s, Swap(next)).live == NewIds(|s.heap|, |next|)
  {
    hide Step, Carried, NewIds;
    SwapStep(s, next);
    assert LiveLinks(Step(s, Swap(next))) == Carried(LiveLinks(s), next);
  }

  // The state with the live links and the cursor replaced.
  ghost function Stored(s: State, r: (seq<Link>, nat)): State
    requires Wf(s) && |r.0| == |s.live|
  {
    s.(heap := Store(s.heap, s.live, r.0), cursor := r.1)
  }

  lemma TunnelStep(s: State, tried: nat)
    requires Wf(s) && s.cursor < |s.live| && SomeUntried(tried, |s.live|)
    ensures var r := AfterTunnelPick(LiveLinks(s), s.cursor, tried);
            Step(s, TunnelPick(tried)) == Stored(s, r)
  {
    hide Step, AfterTunnelPick;
    StepIsListStep(s, TunnelPick(tried));
  }

  /** Every live link stays short of its ratio, and the cursor in range, whatever happens,
      as long as the lists swapped in come from the parser. */
  lemma StepStaysBalanced(s: State, e: Event)
    requires Wf(s) && Balanced(s) && Enabled(s, e)
    requires e.Swap? ==> forall k :: 0 <= k < |e.next| ==> e.next[k].Fresh()
    ensures Balanced(Step(s, e))
  {
    if OnLink(e) {
      hide Step;
      LiveAfterLinkStep(s, e);
    } else if e.Swap? {
      hide Step;
      LiveAfterSwap(s, e.next);
    } else {
      hide Step, ListStep;
      LiveAfterListStep(s, e);
      ListStepStaysBalanced(LiveLinks(s), s.cursor, e);
    }
  }

  lemma ListStepStaysBalanced(links: seq<Link>, c: nat, e: Event)
    requires CursorOk(c, |links|) && (e.TunnelPick? ==> SomeUntried(e.tried, |links|))
    requires forall k :: 0 <= k < |links| ==> links[k].InTurn()
    ensures forall k :: 0 <= k < |links| ==> ListStep(links, c, e).0[k].InTurn()
  {
    if e.TunnelPick? {
      PicksStayInTurn(links, c, 0, e.tried);
    } else if e.Request? && Choose(links, c, e.hasV4, e.hasV6).InRotation? {
      ChoiceIsNearest(links, c, e.hasV4, e.hasV6);
    }
  }

  lemma {:induction false} RunStaysBalanced(s: State, es: seq<Event>)
    requires Wf(s) && Balanced(s) && Legal(s, es)
    requires forall e :: e in es && e.Swap? ==> forall k :: 0 <= k < |e.next| ==> e.next[k].Fresh()
    ensures Balanced(Run(s, es))
  {
    if es != [] {
      RunStaysBalanced(s, Front(es));
      assert Last(es) in es;
      StepStaysBalanced(Run(s, Front(es)), Last(es));
    }
  }
}
