/**
Replacing the list of links while connections are in flight
(dispatcher/dispatcher.go:511-549), and restoring probed links into a list that may have
been replaced (dispatcher/health.go:202-239).
*/
module Swaps {
  import opened Links
  import opened Engine

  // ----- what a swap carries

  ghost predicate DistinctAddresses(links: seq<Link>) {
    forall j, k :: 0 <= j < k < |links| ==> links[j].address != links[k].address
  }

  // Traffic and health, but not `reported`, which starts over.
  ghost predicate SameRecord(l: Link, l': Link) {
    && l.sent == l'.sent && l.received == l'.received && l.handled == l'.handled
    && l.lastError == l'.lastError && l.failures == l'.failures
    && l.excluded == l'.excluded && l.excludedReason == l'.excludedReason
  }

  lemma CarryConserves(links: seq<Link>, next: seq<Link>, j: nat, k: nat)
    requires DistinctAddresses(links) && j < |links| && k < |next|
    ensures var new' := Carried(links, next)[k];
            && new'.address == next[k].address && new'.ratio == next[k].ratio && new'.current == next[k].current
            && new'.iface == next[k].iface && new'.isIPv6 == next[k].isIPv6 && new'.reported == next[k].reported
            && (links[j].address == next[k].address ==> SameRecord(new', links[j]))
  {
    var o := LastAt(links, next[k].address);
    if links[j].address == next[k].address {
      assert o == j;
    }
  }

  lemma SwapKeepsObjects(s: State, next: seq<Link>, id: Id)
    requires Wf(s) && next != [] && id < |s.heap|
    ensures id < |Step(s, Swap(next)).heap| && Step(s, Swap(next)).heap[id] == s.heap[id]
    ensures Step(s, Swap(next)).cursor == 0
  {
  }

  /** A swap with distinct addresses: the new list takes its place in its own order, with
      the cursor at its start, on objects of its own; a surviving address keeps its record
      and takes its ratio, interface and turn from the new list; a new address starts as
      supplied. Every old object stays as it was, for the connections that still hold it. */
  lemma SwapConserves(s: State, next: seq<Link>, j: nat, k: nat)
    requires Wf(s) && next != [] && DistinctAddresses(LiveLinks(s)) && j < |s.live| && k < |next|
    ensures var s' := Step(s, Swap(next));
            var new' := LiveLinks(s')[k];
            && |s'.live| == |next| && s'.cursor == 0
            && s'.live[k] >= |s.heap| && s'.heap[s.live[j]] == LiveLinks(s)[j]
            && new'.address == next[k].address && new'.ratio == next[k].ratio && new'.current == next[k].current
            && new'.iface == next[k].iface && new'.isIPv6 == next[k].isIPv6 && new'.reported == next[k].reported
            && (LiveLinks(s)[j].address == next[k].address ==> SameRecord(new', LiveLinks(s)[j]))
    ensures (forall i :: 0 <= i < |s.live| ==> LiveLinks(s)[i].address != next[k].address) ==>
              LiveLinks(Step(s, Swap(next)))[k] == next[k]
  {
    hide Step, DistinctAddresses, SameRecord;
    LiveAfterSwap(s, next);
    SwapKeepsObjects(s, next, s.live[j]);
    CarryConserves(LiveLinks(s), next, j, k);
  }

  // ----- connections on links that are gone

  // A step of a connection whose link object is no longer live.
  ghost predicate Stale(s: State, e: Event) {
    OnLink(e) && e.id !in s.live
  }

  // The run without the steps on links that were gone by then.
  ghost function WithoutStale(s: State, es: seq<Event>): seq<Event>
    requires Wf(s)
  {
    if es == [] then []
    else WithoutStale(s, Front(es)) + (if Stale(Run(s, Front(es)), Last(es)) then [] else [Last(es)])
  }

  // Equal up to the objects that are no longer live.
  ghost predicate SameLive(s: State, t: State)
    requires Wf(s) && Wf(t)
  {
    && s.live == t.live && s.cursor == t.cursor
    && s.autoExclude == t.autoExclude && s.threshold == t.threshold
    && |s.heap| == |t.heap| && LiveLinks(s) == LiveLinks(t)
  }

  lemma StaleStepIsInvisible(s: State, e: Event)
    requires Wf(s) && Enabled(s, e) && Stale(s, e)
    ensures SameLive(Step(s, e), s)
  {
    LiveAfterLinkStep(s, e);
  }

  lemma SameLiveSteps(s: State, t: State, e: Event)
    requires Wf(s) && Wf(t) && SameLive(s, t) && Enabled(s, e) && !Stale(s, e)
    ensures Enabled(t, e) && SameLive(Step(s, e), Step(t, e))
  {
    if OnLink(e) {
      LiveAfterLinkStep(s, e);
      LiveAfterLinkStep(t, e);
    } else if e.Swap? {
      LiveAfterSwap(s, e.next);
      LiveAfterSwap(t, e.next);
    } else {
      LiveAfterListStep(s, e);
      LiveAfterListStep(t, e);
    }
  }

  /** Non-interference: deleting from a run every step taken by an in-flight connection on
      a link object that had been swapped out leaves the live links, the cursor and the
      settings exactly as they were, and what remains is still a possible run. */
  lemma {:induction false} StaleConnectionsDoNotInterfere(s: State, es: seq<Event>)
    requires Wf(s) && Legal(s, es)
    ensures Legal(s, WithoutStale(s, es))
    ensures SameLive(Run(s, es), Run(s, WithoutStale(s, es)))
  {
    hide Step, Wf, Enabled, Stale;
    if es != [] {
      var t, e, kept := Run(s, Front(es)), Last(es), WithoutStale(s, Front(es));
      StaleConnectionsDoNotInterfere(s, Front(es));
      if Stale(t, e) {
        StaleStepIsInvisible(t, e);
        assert WithoutStale(s, es) == kept;
      } else {
        SameLiveSteps(t, Run(s, kept), e);
        RunOneMore(s, kept, e);
      }
    }
  }

  // ----- restoring what was probed

  /** A link was probed at position i of the list of state s; when the answer arrives the
      list may have been swapped or edited arbitrarily. The restoring step then changes no
      object, or only the live object at position i, and that has the probed address. */
  lemma RestoreHitsOnlyTheProbed(s: State, es: seq<Event>, i: nat, id: Id)
    requires Wf(s) && i < |s.live| && id < |Run(s, es).heap|
    ensures var address, t := LiveLinks(s)[i].address, Run(s, es);
            var t' := Step(t, ProbeRestore(i, address));
            && t'.live == t.live && t'.cursor == t.cursor && id < |t'.heap|
            && (t'.heap[id] != t.heap[id] ==>
                  && i < |t.live| && t.live[i] == id
                  && t.heap[id].address == address && t'.heap[id] == Restored(t.heap[id]))
  {
    hide Run, Step;
    RestoreTouches(Run(s, es), i, LiveLinks(s)[i].address, id);
  }

  lemma RestoreTouches(t: State, i: nat, address: string, id: Id)
    requires Wf(t) && id < |t.heap|
    ensures var t' := Step(t, ProbeRestore(i, address));
            && t'.live == t.live && t'.cursor == t.cursor && id < |t'.heap|
            && (t'.heap[id] != t.heap[id] ==>
                  && i < |t.live| && t.live[i] == id
                  && t.heap[id].address == address && t'.heap[id] == Restored(t.heap[id]))
  {
    var e := ProbeRestore(i, address);
    hide Step;
    LiveAfterListStep(t, e);
    ObjectAfterListStep(t, e, id);
    assert id in t.live ==> LiveLinks(t)[PositionOf(t.live, id)] == t.heap[id];
  }

  ghost function ProbeStep(links: seq<Link>, answers: nat -> bool, i: nat): seq<Event>
    requires i < |links|
  {
    if links[i].excluded && answers(i) then [ProbeRestore(i, links[i].address)] else []
  }

  // The restoring steps of one undisturbed probing pass over the first n links.
  ghost function ProbePass(links: seq<Link>, answers: nat -> bool, n: nat): seq<Event>
    requires n <= |links|
  {
    if n == 0 then []
    else ProbePass(links, answers, n - 1) + ProbeStep(links, answers, n - 1)
  }

  ghost function Probed(links: seq<Link>, answers: nat -> bool, n: nat): (r: seq<Link>)
    ensures |r| == |links|
    ensures forall k :: 0 <= k < |r| ==>
              r[k] == if k < n && links[k].excluded && answers(k) then Restored(links[k]) else links[k]
  {
    seq(|links|, k requires 0 <= k < |links| =>
      if k < n && links[k].excluded && answers(k) then Restored(links[k]) else links[k])
  }

  // State t is state s with the answering excluded links among the first n restored.
  ghost predicate ProbedSince(s: State, t: State, answers: nat -> bool, n: nat)
    requires Wf(s) && Wf(t)
  {
    && t.live == s.live && t.cursor == s.cursor && t.autoExclude == s.autoExclude && t.threshold == s.threshold
    && LiveLinks(t) == Probed(LiveLinks(s), answers, n)
  }

  /** Undisturbed, a probing pass restores exactly the excluded links that answered and
      changes nothing else about the live list. */
  lemma {:induction false} ProbePassRestoresAnswering(s: State, answers: nat -> bool, n: nat)
    requires Wf(s) && n <= |s.live|
    ensures ProbedSince(s, Run(s, ProbePass(LiveLinks(s), answers, n)), answers, n)
  {
    hide *;
    if n == 0 {
      ProbeNone(s, answers);
    } else {
      var es, step := ProbePass(LiveLinks(s), answers, n - 1), ProbeStep(LiveLinks(s), answers, n - 1);
      ProbePassRestoresAnswering(s, answers, n - 1);
      OneProbe(s, Run(s, es), answers, n - 1);
      ProbePassUnfolds(LiveLinks(s), answers, n);
      if step == [] {
        assert es + step == es;
      } else {
        RunOneMore(s, es, step[0]);
      }
    }
  }

  lemma ProbeNone(s: State, answers: nat -> bool)
    requires Wf(s)
    ensures ProbedSince(s, Run(s, ProbePass(LiveLinks(s), answers, 0)), answers, 0)
  {
    assert Probed(LiveLinks(s), answers, 0) == LiveLinks(s);
  }

  lemma ProbePassUnfolds(links: seq<Link>, answers: nat -> bool, n: nat)
    requires 0 < n <= |links|
    ensures var step := ProbeStep(links, answers, n - 1);
            && ProbePass(links, answers, n) == ProbePass(links, answers, n - 1) + step
            && (step == [] || step == [step[0]])
  {
  }

  lemma OneProbe(s: State, t: State, answers: nat -> bool, i: nat)
    requires Wf(s) && Wf(t) && i < |s.live| && ProbedSince(s, t, answers, i)
    ensures var es := ProbeStep(LiveLinks(s), answers, i);
            ProbedSince(s, if es == [] then t else Step(t, es[0]), answers, i + 1)
  {
    var links := LiveLinks(s);
    var es := ProbeStep(links, answers, i);
    if es == [] {
      assert Probed(links, answers, i + 1) == Probed(links, answers, i);
    } else {
      hide Step, ListStep, ProbeStep, Wf;
      RestoreKeepsRest(t, i, links[i].address);
      assert LiveLinks(t)[i] == links[i];
      assert Probed(links, answers, i + 1) == Probed(links, answers, i)[i := Restored(links[i])];
    }
  }

  lemma RestoreKeepsRest(t: State, i: nat, address: string)
    requires Wf(t) && i < |t.live|
    ensures var t' := Step(t, ProbeRestore(i, address));
            && t'.live == t.live && t'.cursor == t.cursor
            && t'.autoExclude == t.autoExclude && t'.threshold == t.threshold
            && LiveLinks(t') == ProbeRestored(LiveLinks(t), i, address)
  {
    hide Step, ProbeRestored;
    LiveAfterListStep(t, ProbeRestore(i, address));
    ObjectAfterListStep(t, ProbeRestore(i, address), t.live[i]);
  }
}
