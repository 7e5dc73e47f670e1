/**
Probing passes (dispatcher/health.go:202-239) among everything else that goes on: the
list is copied once, then each probe that succeeds restores its link, with any steps of
anybody, list swaps included, in between, and the pass may be cancelled at any candidate.
*/
module Probes {
  import opened Links
  import opened Scheduling
  import TunnelScheduling
  import opened Engine
  import opened History
  import Swaps

  // Position and address of every excluded link among the first n.
  ghost function Candidates(links: seq<Link>, n: nat): seq<(nat, string)>
    requires n <= |links|
  {
    if n == 0 then []
    else
      Candidates(links, n - 1) + (if links[n - 1].excluded then [(n - 1, links[n - 1].address)] else [])
  }

  // Which probes succeed, by position; and what everybody else does while the k-th
  // candidate is being probed.
  type Answers = nat -> bool
  type Meanwhile = nat -> seq<Event>

  ghost function RestoreIf(candidate: (nat, string), answers: Answers): seq<Event> {
    if answers(candidate.0) then [ProbeRestore(candidate.0, candidate.1)] else []
  }

  // Everything up to the end of the first k candidates.
  ghost function PassUpTo(candidates: seq<(nat, string)>, answers: Answers, others: Meanwhile, k: nat): seq<Event>
    requires k <= |candidates|
  {
    if k == 0 then []
    else PassUpTo(candidates, answers, others, k - 1) + others(k - 1) + RestoreIf(candidates[k - 1], answers)
  }

  // The same without the pass.
  ghost function OthersUpTo(others: Meanwhile, k: nat): seq<Event> {
    if k == 0 then [] else OthersUpTo(others, k - 1) + others(k - 1)
  }

  // A probe that succeeds is announced even when its link is gone.
  ghost function AlertsUpTo(candidates: seq<(nat, string)>, answers: Answers, k: nat): seq<HealthEvent>
    requires k <= |candidates|
  {
    if k == 0 then []
    else
      var (index, address) := candidates[k - 1];
      AlertsUpTo(candidates, answers, k - 1) +
      (if answers(index) then [HealthEvent(address, false, "responding again")] else [])
  }

  // How many of n candidates are reached before the pass finds itself cancelled.
  ghost function Reach(cancelled: nat -> bool, n: nat): (m: nat)
    ensures m <= n && (m < n ==> cancelled(m)) && forall k :: 0 <= k < m ==> !cancelled(k)
  {
    if n == 0 then 0
    else
      var m := Reach(cancelled, n - 1);
      if m == n - 1 && !cancelled(m) then n else m
  }

  lemma ReachGoesOn(cancelled: nat -> bool, n: nat, k: nat)
    requires k < n && k <= Reach(cancelled, n) && !cancelled(k)
    ensures k < Reach(cancelled, n)
  {
  }

  lemma PassOneMore(candidates: seq<(nat, string)>, answers: Answers, others: Meanwhile, k: nat)
    requires k < |candidates|
    ensures var (index, address) := candidates[k];
            && PassUpTo(candidates, answers, others, k + 1) ==
               PassUpTo(candidates, answers, others, k) + others(k) +
               (if answers(index) then [ProbeRestore(index, address)] else [])
            && AlertsUpTo(candidates, answers, k + 1) ==
               AlertsUpTo(candidates, answers, k) +
               (if answers(index) then [HealthEvent(address, false, "responding again")] else [])
  {
  }

  lemma PassRunOneMore(s: State, candidates: seq<(nat, string)>, answers: Answers, others: Meanwhile, k: nat)
    requires Wf(s) && k < |candidates|
    ensures var (index, address) := candidates[k];
            var t := Run(Run(s, PassUpTo(candidates, answers, others, k)), others(k));
            Run(s, PassUpTo(candidates, answers, others, k + 1)) ==
            if answers(index) then Step(t, ProbeRestore(index, address)) else t
  {
    hide Run, Step, PassUpTo;
    var es := PassUpTo(candidates, answers, others, k);
    PassSplits(candidates, answers, others, k + 1);
    RestoreIfRun(s, es + others(k), candidates[k], answers);
    RunConcat(s, es, others(k));
  }

  lemma PassStarts(candidates: seq<(nat, string)>, answers: Answers, others: Meanwhile)
    ensures PassUpTo(candidates, answers, others, 0) == [] && AlertsUpTo(candidates, answers, 0) == []
  {
  }

  // ----- who is probed, and what is announced

  /** The candidates are exactly the excluded links, in list order, with their addresses. */
  lemma {:induction false} CandidatesAreExact(links: seq<Link>, n: nat)
    requires n <= |links|
    ensures var r := Candidates(links, n);
            && (forall k :: 0 <= k < |r| ==> r[k].0 < n && links[r[k].0].excluded && r[k].1 == links[r[k].0].address)
            && (forall j, k :: 0 <= j < k < |r| ==> r[j].0 < r[k].0)
            && (forall i: nat :: i < n && links[i].excluded ==> (i, links[i].address) in r)
  {
    if n > 0 {
      CandidatesAreExact(links, n - 1);
      var before, r := Candidates(links, n - 1), Candidates(links, n);
      var last := if links[n - 1].excluded then [(n - 1, links[n - 1].address)] else [];
      assert r == before + last;
      forall i: nat | i < n && links[i].excluded ensures (i, links[i].address) in r {
        if i == n - 1 {
          assert r[|before|] == (i, links[i].address);
        } else {
          assert (i, links[i].address) in before;
        }
      }
    }
  }

  // How many of the first k candidates answer.
  ghost function Answering(candidates: seq<(nat, string)>, answers: Answers, k: nat): nat
    requires k <= |candidates|
  {
    if k == 0 then 0
    else Answering(candidates, answers, k - 1) + (if answers(candidates[k - 1].0) then 1 else 0)
  }

  /** One event for every candidate reached that answers, in order, with its address. */
  lemma {:induction false} AlertsTell(candidates: seq<(nat, string)>, answers: Answers, m: nat)
    requires m <= |candidates|
    ensures var alerts := AlertsUpTo(candidates, answers, m);
            && |alerts| == Answering(candidates, answers, m)
            && forall k :: 0 <= k < m && answers(candidates[k].0) ==>
                 var i := Answering(candidates, answers, k);
                 i < |alerts| && alerts[i] == HealthEvent(candidates[k].1, false, "responding again")
  {
    if m > 0 {
      AlertsTell(candidates, answers, m - 1);
    }
  }

  // ----- an undisturbed pass

  ghost predicate Quiet(others: Meanwhile) {
    forall k :: others(k) == []
  }

  lemma {:induction false} PassFrame(a: seq<(nat, string)>, b: seq<(nat, string)>, answers: Answers,
                                     others: Meanwhile, k: nat)
    requires k <= |a| && k <= |b| && a[..k] == b[..k]
    ensures PassUpTo(a, answers, others, k) == PassUpTo(b, answers, others, k)
  {
    if k > 0 {
      assert a[..k - 1] == a[..k][..k - 1] == b[..k][..k - 1] == b[..k - 1];
      assert a[k - 1] == a[..k][k - 1] == b[..k][k - 1] == b[k - 1];
      PassFrame(a, b, answers, others, k - 1);
    }
  }

  lemma {:induction false} QuietPassIsWhole(links: seq<Link>, answers: Answers, others: Meanwhile, n: nat)
    requires n <= |links| && Quiet(others)
    ensures var all := Candidates(links, n);
            PassUpTo(all, answers, others, |all|) == Swaps.ProbePass(links, answers, n)
  {
    hide PassUpTo, Swaps.ProbePass, Swaps.ProbeStep;
    if n == 0 {
      NothingToProbe(links, answers, others);
    } else {
      var before, all := Candidates(links, n - 1), Candidates(links, n);
      QuietPassIsWhole(links, answers, others, n - 1);
      Swaps.ProbePassUnfolds(links, answers, n);
      ProbeStepIs(links, answers, n - 1);
      if links[n - 1].excluded {
        assert others(|before|) == [];
        assert all[..|before|] == before == before[..|before|];
        PassFrame(before, all, answers, others, |before|);
        PassOneMore(all, answers, others, |before|);
      } else {
        assert all == before;
      }
    }
  }

  lemma NothingToProbe(links: seq<Link>, answers: Answers, others: Meanwhile)
    ensures Candidates(links, 0) == [] && PassUpTo([], answers, others, 0) == Swaps.ProbePass(links, answers, 0) == []
  {
  }

  lemma ProbeStepIs(links: seq<Link>, answers: Answers, i: nat)
    requires i < |links|
    ensures Swaps.ProbeStep(links, answers, i) ==
            if links[i].excluded && answers(i) then [ProbeRestore(i, links[i].address)] else []
  {
  }

  /** A pass that nothing disturbs but that may be cancelled is a whole pass over the links
      before the candidate it was cancelled at. */
  lemma {:induction false} QuietPass(links: seq<Link>, answers: Answers, others: Meanwhile, n: nat, m: nat)
    returns (upTo: nat)
    requires n <= |links| && Quiet(others) && m <= |Candidates(links, n)|
    ensures upTo <= n && (m == |Candidates(links, n)| ==> upTo == n)
    ensures m < |Candidates(links, n)| ==> upTo == Candidates(links, n)[m].0
    ensures PassUpTo(Candidates(links, n), answers, others, m) == Swaps.ProbePass(links, answers, upTo)
  {
    hide PassUpTo, Swaps.ProbePass, Quiet;
    if m == |Candidates(links, n)| {
      QuietPassIsWhole(links, answers, others, n);
      upTo := n;
    } else {
      var before := Candidates(links, n - 1);
      PassFrame(before, Candidates(links, n), answers, others, m);
      if m == |before| {
        QuietPassIsWhole(links, answers, others, n - 1);
        upTo := n - 1;
      } else {
        upTo := QuietPass(links, answers, others, n - 1, m);
      }
    }
  }

  /** So it restores exactly the answering excluded links before that candidate. */
  lemma QuietPassRestores(s: State, answers: Answers, others: Meanwhile, m: nat) returns (upTo: nat)
    requires Wf(s) && Quiet(others) && m <= |Candidates(LiveLinks(s), |s.live|)|
    ensures upTo <= |s.live| && (m == |Candidates(LiveLinks(s), |s.live|)| ==> upTo == |s.live|)
    ensures m < |Candidates(LiveLinks(s), |s.live|)| ==> upTo == Candidates(LiveLinks(s), |s.live|)[m].0
    ensures var all := Candidates(LiveLinks(s), |s.live|);
            Swaps.ProbedSince(s, Run(s, PassUpTo(all, answers, others, m)), answers, upTo)
  {
    hide *;
    upTo := QuietPass(LiveLinks(s), answers, others, |s.live|, m);
    Swaps.ProbePassRestoresAnswering(s, answers, upTo);
  }

  // ----- a disturbed pass

  lemma {:induction false} LegalConcat(s: State, es: seq<Event>, fs: seq<Event>)
    requires Wf(s)
    ensures Legal(s, es + fs) <==> Legal(s, es) && Legal(Run(s, es), fs)
  {
    hide Run, Enabled;
    if fs == [] {
      assert es + fs == es;
    } else {
      LegalConcat(s, es, Front(fs));
      RunConcat(s, es, Front(fs));
      assert Front(es + fs) == es + Front(fs) && Last(es + fs) == Last(fs);
    }
  }

  // What the others do at the k-th candidate can happen then.
  lemma {:induction false} OthersAreLegal(s: State, candidates: seq<(nat, string)>, answers: Answers,
                                          others: Meanwhile, m: nat, k: nat)
    requires Wf(s) && k < m <= |candidates| && Legal(s, PassUpTo(candidates, answers, others, m))
    ensures Legal(Run(s, PassUpTo(candidates, answers, others, k)), others(k))
  {
    hide Legal, Run, PassUpTo, RestoreIf;
    var es := PassUpTo(candidates, answers, others, m - 1);
    PassSplits(candidates, answers, others, m);
    LegalConcat(s, es + others(m - 1), RestoreIf(candidates[m - 1], answers));
    LegalConcat(s, es, others(m - 1));
    if k < m - 1 {
      OthersAreLegal(s, candidates, answers, others, m - 1, k);
    }
  }

  ghost predicate SameAddresses(s: State, t: State) {
    |s.heap| == |t.heap| && forall id :: 0 <= id < |s.heap| ==> s.heap[id].address == t.heap[id].address
  }

  // Equal in everything that bears on health, but for links at the given addresses.
  ghost predicate AgreeOff(s: State, t: State, addresses: set<string>) {
    && s.live == t.live && s.autoExclude == t.autoExclude && s.threshold == t.threshold
    && SameAddresses(s, t)
    && forall id :: 0 <= id < |s.heap| && s.heap[id].address !in addresses ==>
         HealthOf(s.heap[id]) == HealthOf(t.heap[id])
  }

  lemma {:induction false} PlacesByAddress(links: seq<Link>, links': seq<Link>, address: string)
    requires |links| == |links'| && forall k :: 0 <= k < |links| ==> links[k].address == links'[k].address
    ensures FirstAt(links, address) == FirstAt(links', address)
    ensures LastAt(links, address) == LastAt(links', address)
  {
  }

  lemma ThresholdStep(s: State, e: Event)
    requires Wf(s)
    ensures Step(s, e).threshold == s.threshold
  {
  }

  lemma AgreeOnHealth(s: State, t: State, e: Event, p: Id, addresses: set<string>)
    requires Wf(s) && Wf(t) && AgreeOff(s, t, addresses) && Enabled(s, e) && Enabled(t, e)
    requires p < |s.heap| && s.heap[p].address !in addresses
    ensures p < |Step(s, e).heap| && p < |Step(t, e).heap|
    ensures HealthOf(Step(s, e).heap[p]) == HealthOf(Step(t, e).heap[p])
  {
    hide Step, Wf, Enabled, FirstAt;
    HealthStep(s, e, p);
    HealthStep(t, e, p);
    if e.SetExcluded? {
      SameLiveAddresses(s, t);
      PlacesByAddress(LiveLinks(s), LiveLinks(t), e.address);
    }
  }

  lemma AgreeOnNew(s: State, t: State, e: Event, id: Id, addresses: set<string>)
    requires Wf(s) && Wf(t) && AgreeOff(s, t, addresses) && Enabled(s, e) && Enabled(t, e) && e.Swap?
    requires |s.heap| <= id < |Step(s, e).heap|
    ensures id < |Step(t, e).heap| && Step(s, e).heap[id].address == Step(t, e).heap[id].address
    ensures Step(s, e).heap[id].address !in addresses ==>
              HealthOf(Step(s, e).heap[id]) == HealthOf(Step(t, e).heap[id])
  {
    hide Step, Wf, LastAt, Carried, HealthOf;
    SwapLength(s, e);
    SwapLength(t, e);
    SwapHeap(s, e, id);
    SwapHeap(t, e, id);
    var k := id - |s.heap|;
    CarriedAddress(LiveLinks(s), e.next, k);
    CarriedAddress(LiveLinks(t), e.next, k);
    SameLiveAddresses(s, t);
    PlacesByAddress(LiveLinks(s), LiveLinks(t), e.next[k].address);
    if e.next[k].address !in addresses {
      CarriedHealth(LiveLinks(s), LiveLinks(t), e.next, k, addresses, s, t);
    }
  }

  lemma SameLiveAddresses(s: State, t: State)
    requires Wf(s) && Wf(t) && s.live == t.live && SameAddresses(s, t)
    ensures forall k :: 0 <= k < |s.live| ==> LiveLinks(s)[k].address == LiveLinks(t)[k].address
  {
  }

  lemma CarriedAddress(links: seq<Link>, next: seq<Link>, k: nat)
    requires k < |next|
    ensures Carried(links, next)[k].address == next[k].address
  {
  }

  lemma CarriedHealth(links: seq<Link>, links': seq<Link>, next: seq<Link>, k: nat, addresses: set<string>,
                      s: State, t: State)
    requires Wf(s) && Wf(t) && AgreeOff(s, t, addresses) && links == LiveLinks(s) && links' == LiveLinks(t)
    requires k < |next| && next[k].address !in addresses
    requires LastAt(links, next[k].address) == LastAt(links', next[k].address)
    ensures HealthOf(Carried(links, next)[k]) == HealthOf(Carried(links', next)[k])
  {
    hide LastAt;
    var o := LastAt(links, next[k].address);
    if o < |links| {
      assert links[o] == s.heap[s.live[o]] && links'[o] == t.heap[t.live[o]];
    }
  }

  lemma SwapLength(s: State, e: Event)
    requires Wf(s) && Enabled(s, e) && e.Swap?
    ensures |Step(s, e).heap| == |s.heap| + |e.next| && Step(s, e).live == NewIds(|s.heap|, |e.next|)
    ensures Step(s, e).autoExclude == s.autoExclude
  {
  }

  lemma AgreeStep(s: State, t: State, e: Event, addresses: set<string>)
    requires Wf(s) && Wf(t) && AgreeOff(s, t, addresses) && Enabled(s, e)
    ensures Enabled(t, e) && AgreeOff(Step(s, e), Step(t, e), addresses)
  {
    EnabledAlike(s, t, e, addresses);
    hide Step, Wf, Enabled;
    var s', t' := Step(s, e), Step(t, e);
    ThresholdStep(s, e);
    ThresholdStep(t, e);
    FlagStep(s, e);
    FlagStep(t, e);
    if e.Swap? {
      SwapLength(s, e);
      SwapLength(t, e);
    } else {
      LiveStays(s, e);
      LiveStays(t, e);
    }
    forall id | 0 <= id < |s'.heap|
      ensures s'.heap[id].address == t'.heap[id].address
      ensures s'.heap[id].address !in addresses ==> HealthOf(s'.heap[id]) == HealthOf(t'.heap[id])
    {
      if id < |s.heap| {
        IdentityStep(s, e, id);
        IdentityStep(t, e, id);
        if s.heap[id].address !in addresses {
          AgreeOnHealth(s, t, e, id, addresses);
        }
      } else {
        AgreeOnNew(s, t, e, id, addresses);
      }
    }
  }

  lemma EnabledAlike(s: State, t: State, e: Event, addresses: set<string>)
    requires AgreeOff(s, t, addresses)
    ensures Enabled(s, e) <==> Enabled(t, e)
  {
  }

  lemma {:induction false} AgreeRun(s: State, t: State, es: seq<Event>, addresses: set<string>)
    requires Wf(s) && Wf(t) && AgreeOff(s, t, addresses) && Legal(s, es)
    ensures Legal(t, es) && AgreeOff(Run(s, es), Run(t, es), addresses)
  {
    hide Step, Wf, Enabled, AgreeOff;
    if es != [] {
      AgreeRun(s, t, Front(es), addresses);
      AgreeStep(Run(s, Front(es)), Run(t, Front(es)), Last(es), addresses);
    }
  }

  // A restore at one of the addresses is not seen at the others.
  lemma AgreeRestore(s: State, t: State, index: nat, address: string, addresses: set<string>)
    requires Wf(s) && Wf(t) && AgreeOff(s, t, addresses) && address in addresses
    ensures AgreeOff(Step(s, ProbeRestore(index, address)), t, addresses)
  {
    hide Step;
    RestoreStep(s, index, address);
  }

  ghost predicate Covers(addresses: set<string>, candidates: seq<(nat, string)>) {
    forall k :: 0 <= k < |candidates| ==> candidates[k].1 in addresses
  }

  /** A disturbed pass stays with what it probed: whatever happens in between, the same run
      without the pass leaves every link whose address was not among the excluded ones at
      the start with exactly the same streak, exclusion and reported flag. */
  lemma {:induction false} PassStaysWithProbed(s: State, candidates: seq<(nat, string)>, answers: Answers,
                                               others: Meanwhile, k: nat, addresses: set<string>)
    requires Wf(s) && k <= |candidates| && Covers(addresses, candidates)
    requires Legal(s, PassUpTo(candidates, answers, others, k))
    ensures Legal(s, OthersUpTo(others, k))
    ensures AgreeOff(Run(s, PassUpTo(candidates, answers, others, k)), Run(s, OthersUpTo(others, k)), addresses)
  {
    hide *;
    if k > 0 {
      var es, fs := PassUpTo(candidates, answers, others, k - 1), OthersUpTo(others, k - 1);
      PassSplits(candidates, answers, others, k);
      LegalConcat(s, es + others(k - 1), RestoreIf(candidates[k - 1], answers));
      LegalConcat(s, es, others(k - 1));
      PassStaysWithProbed(s, candidates, answers, others, k - 1, addresses);
      Covered(addresses, candidates, k - 1);
      OneMoreProbed(s, es, fs, others(k - 1), candidates[k - 1], answers, addresses);
    } else {
      Alike(s, addresses);
      PassStarts(candidates, answers, others);
      NoOthers(s, others);
    }
  }

  lemma Covered(addresses: set<string>, candidates: seq<(nat, string)>, k: nat)
    requires Covers(addresses, candidates) && k < |candidates|
    ensures candidates[k].1 in addresses
  {
  }

  lemma NoOthers(s: State, others: Meanwhile)
    requires Wf(s)
    ensures OthersUpTo(others, 0) == [] && Legal(s, []) && Run(s, []) == s
  {
  }

  // One more candidate, with everybody else's steps before its restore.
  lemma OneMoreProbed(s: State, es: seq<Event>, fs: seq<Event>, next: seq<Event>, candidate: (nat, string),
                      answers: Answers, addresses: set<string>)
    requires Wf(s) && AgreeOff(Run(s, es), Run(s, fs), addresses) && candidate.1 in addresses
    requires Legal(s, fs) && Legal(Run(s, es), next)
    ensures Legal(s, fs + next)
    ensures AgreeOff(Run(s, es + next + RestoreIf(candidate, answers)), Run(s, fs + next), addresses)
  {
    hide *;
    AgreeRun(Run(s, es), Run(s, fs), next, addresses);
    LegalConcat(s, fs, next);
    RunConcat(s, es, next);
    RunConcat(s, fs, next);
    RestoreIfRun(s, es + next, candidate, answers);
    if RestoreIf(candidate, answers) != [] {
      AgreeRestore(Run(s, es + next), Run(s, fs + next), candidate.0, candidate.1, addresses);
    }
  }

  lemma Alike(s: State, addresses: set<string>)
    ensures AgreeOff(s, s, addresses)
  {
  }

  lemma PassSplits(candidates: seq<(nat, string)>, answers: Answers, others: Meanwhile, k: nat)
    requires 0 < k <= |candidates|
    ensures PassUpTo(candidates, answers, others, k) ==
            PassUpTo(candidates, answers, others, k - 1) + others(k - 1) + RestoreIf(candidates[k - 1], answers)
    ensures OthersUpTo(others, k) == OthersUpTo(others, k - 1) + others(k - 1)
  {
  }

  lemma RestoreIfRun(s: State, es: seq<Event>, candidate: (nat, string), answers: Answers)
    requires Wf(s)
    ensures var last := RestoreIf(candidate, answers);
            Run(s, es + last) ==
            if last == [] then Run(s, es) else Step(Run(s, es), ProbeRestore(candidate.0, candidate.1))
  {
    if answers(candidate.0) {
      RunOneMore(s, es, ProbeRestore(candidate.0, candidate.1));
    } else {
      assert es + [] == es;
    }
  }

  /** Each single restore of a disturbed pass, whenever it comes: it leaves every object
      alone, or restores the live one that is at its position by then, at the address of a
      link that was excluded when the pass began. */
  lemma RestoreOfPass(s: State, answers: Answers, others: Meanwhile, k: nat, id: Id)
    requires Wf(s) && k < |Candidates(LiveLinks(s), |s.live|)|
    requires id < |Run(s, PassUpTo(Candidates(LiveLinks(s), |s.live|), answers, others, k) + others(k)).heap|
    ensures var (index, address) := Candidates(LiveLinks(s), |s.live|)[k];
            var t := Run(s, PassUpTo(Candidates(LiveLinks(s), |s.live|), answers, others, k) + others(k));
            var t' := Step(t, ProbeRestore(index, address));
            && index < |s.live| && LiveLinks(s)[index].excluded && LiveLinks(s)[index].address == address
            && t'.live == t.live && t'.cursor == t.cursor && id < |t'.heap|
            && (t'.heap[id] != t.heap[id] ==>
                  && index < |t.live| && t.live[index] == id
                  && t.heap[id].address == address && t'.heap[id] == Restored(t.heap[id]))
  {
    hide Step, Run, PassUpTo;
    CandidateIsExcluded(LiveLinks(s), |s.live|, k);
    var es := PassUpTo(Candidates(LiveLinks(s), |s.live|), answers, others, k) + others(k);
    Swaps.RestoreHitsOnlyTheProbed(s, es, Candidates(LiveLinks(s), |s.live|)[k].0, id);
  }

  lemma {:induction false} CandidateIsExcluded(links: seq<Link>, n: nat, k: nat)
    requires n <= |links| && k < |Candidates(links, n)|
    ensures var (index, address) := Candidates(links, n)[k];
            index < n && links[index].excluded && links[index].address == address
  {
    if k < |Candidates(links, n - 1)| {
      CandidateIsExcluded(links, n - 1, k);
    }
  }
}
