/**
The retry loop of tunnel mode (dispatcher/dispatcher.go:310-348) on values: the bitset of
tried links, when it is complete, and the critical sections of one connection's attempts
interleaved with those of everybody else.
*/
module TunnelRetry {
  import opened Bitset
  import opened Links
  import opened Scheduling
  import opened TunnelScheduling
  import opened Engine

  // What dialling a link on a given attempt comes to: an error message, or nothing.
  type Dial = (nat, nat) -> Option<string>

  ghost predicate Distinct(dialled: seq<nat>, n: nat) {
    && (forall k :: 0 <= k < |dialled| ==> dialled[k] < n)
    && (forall j, k :: 0 <= j < k < |dialled| ==> dialled[j] != dialled[k])
  }

  // The bitset after the given links have been tried.
  function Tried(dialled: seq<nat>): nat {
    if dialled == [] then 0
    else SetBit(Tried(dialled[..|dialled| - 1]), dialled[|dialled| - 1])
  }

  /** The bitset marks exactly the links tried. */
  lemma {:induction false} TriedIsExact(dialled: seq<nat>, j: nat)
    ensures Bit(Tried(dialled), j) == 1 <==> j in dialled
  {
    if dialled == [] {
      EmptyHasNoBits(j);
    } else {
      var m := |dialled| - 1;
      TriedIsExact(dialled[..m], j);
      SetBitIsExact(Tried(dialled[..m]), dialled[m], j);
      assert dialled == dialled[..m] + [dialled[m]];
    }
  }

  lemma NothingTried()
    ensures Tried([]) == 0
  {
  }

  lemma StartsUntried(n: nat)
    requires n > 0
    ensures SomeUntried(0, n) && Distinct([], n)
  {
    assert Bit(0, 0) == 0;
  }

  ghost function Below(n: nat): (r: set<nat>)
    ensures |r| == n && forall k: nat :: k in r <==> k < n
  {
    if n == 0 then {} else Below(n - 1) + {n - 1}
  }

  // Distinct numbers below n are at most n, and n of them are all of them.
  lemma {:induction false} Pigeonhole(dialled: seq<nat>, n: nat)
    requires Distinct(dialled, n)
    ensures |dialled| <= n
    ensures |dialled| == n ==> forall j: nat :: j < n ==> j in dialled
  {
    if n == 0 {
    } else if n - 1 in dialled {
      var k :| 0 <= k < |dialled| && dialled[k] == n - 1;
      var rest := dialled[..k] + dialled[k + 1..];
      assert |rest| == |dialled| - 1;
      assert forall i :: 0 <= i < |rest| ==> rest[i] == dialled[if i < k then i else i + 1];
      Pigeonhole(rest, n - 1);
      assert forall j :: j in rest ==> j in dialled;
    } else {
      Pigeonhole(dialled, n - 1);
    }
  }

  /** The completeness test succeeds exactly when all n links have been tried; until then
      there is one left for the next pick to find. */
  lemma CompleteWhenAllTried(dialled: seq<nat>, n: nat)
    requires Distinct(dialled, n)
    ensures And(Tried(dialled), Mask(n)) == Mask(n) <==> |dialled| == n
    ensures |dialled| < n ==> SomeUntried(Tried(dialled), n)
  {
    hide SetBit, And, Mask, Tried;
    MaskedIsFull(Tried(dialled), n);
    forall j: nat ensures Bit(Tried(dialled), j) == 1 <==> j in dialled {
      TriedIsExact(dialled, j);
    }
    Pigeonhole(dialled, n);
    if |dialled| == n {
      assert forall j: nat :: j < n ==> Bit(Tried(dialled), j) == 1;
    } else {
      if forall j: nat :: j < n ==> j in dialled {
        AllMeansMany(dialled, n);
      }
      var j: nat :| j < n && j !in dialled;
      assert !(forall k: nat :: k < n ==> Bit(Tried(dialled), k) == 1) by {
        assert Bit(Tried(dialled), j) != 1;
      }
    }
  }

  // The bitset while the last link is being dialled: there is none before a failure.
  ghost function BitsBefore(dialled: seq<nat>): (r: Option<nat>)
    requires dialled != []
    ensures r.None? <==> |dialled| == 1
  {
    if |dialled| == 1 then None else Some(Tried(dialled[..|dialled| - 1]))
  }

  // What marking the last link dialled makes of the bitset.
  lemma LastMarked(dialled: seq<nat>, n: nat)
    requires Distinct(dialled, n) && dialled != []
    ensures var m := |dialled| - 1;
            Tried(dialled) == SetBit(if m == 0 then 0 else BitsBefore(dialled).value, dialled[m])
    ensures And(Tried(dialled), Mask(n)) == Mask(n) <==> |dialled| == n
    ensures |dialled| < n ==> SomeUntried(Tried(dialled), n)
    ensures |dialled| <= n
  {
    hide SetBit, And, Mask, SomeUntried, Bit;
    CompleteWhenAllTried(dialled, n);
    Pigeonhole(dialled, n);
    assert |dialled| == 1 ==> dialled[..0] == [];
  }

  lemma LastInRange(dialled: seq<nat>, n: nat)
    requires Distinct(dialled, n) && dialled != []
    ensures dialled[|dialled| - 1] < n
  {
  }

  lemma AllMeansMany(dialled: seq<nat>, n: nat)
    requires forall j: nat | j < n :: j in dialled
    ensures |dialled| >= n
  {
    var members := set k | 0 <= k < |dialled| :: dialled[k];
    forall j | j in Below(n) ensures j in members {
      assert j in dialled;
    }
    Cardinality(Below(n), members);
    Members(dialled);
  }

  lemma {:induction false} Members(dialled: seq<nat>)
    ensures |set k | 0 <= k < |dialled| :: dialled[k]| <= |dialled|
  {
    if dialled != [] {
      var m := |dialled| - 1;
      Members(dialled[..m]);
      var front := set k | 0 <= k < m :: dialled[..m][k];
      assert (set k | 0 <= k < |dialled| :: dialled[k]) == front + {dialled[m]};
    }
  }

  lemma {:induction false} Cardinality(a: set<nat>, b: set<nat>)
    requires a <= b
    ensures |a| <= |b|
  {
    if a != {} {
      var x :| x in a;
      Cardinality(a - {x}, b - {x});
    }
  }

  // ----- how the dials came out

  ghost predicate FailedBefore(dialled: seq<nat>, dial: Dial) {
    forall k :: 0 <= k < |dialled| - 1 ==> dial(k, dialled[k]).Some?
  }

  ghost predicate AllFailed(dialled: seq<nat>, dial: Dial) {
    forall k :: 0 <= k < |dialled| ==> dial(k, dialled[k]).Some?
  }

  ghost predicate OnlyLastAnswered(dialled: seq<nat>, dial: Dial) {
    && FailedBefore(dialled, dial)
    && dialled != [] && dial(|dialled| - 1, dialled[|dialled| - 1]).None?
  }

  /** How a connection ends on n links: it dialled different ones, at most all of them; it is
      served by the last one dialled, which alone answered, or all n were dialled and failed. */
  ghost predicate Ended(dialled: seq<nat>, served: Option<nat>, dial: Dial, n: nat) {
    && dialled != [] && Distinct(dialled, n) && |dialled| <= n
    && match served
       case Some(i) => i == dialled[|dialled| - 1] && OnlyLastAnswered(dialled, dial)
       case None => AllFailed(dialled, dial) && forall j: nat :: j < n ==> j in dialled
  }

  lemma EndsServed(dialled: seq<nat>, dial: Dial, n: nat)
    requires Distinct(dialled, n) && OnlyLastAnswered(dialled, dial)
    ensures dialled != [] && Ended(dialled, Some(dialled[|dialled| - 1]), dial, n)
  {
    Pigeonhole(dialled, n);
  }

  lemma EndsFailed(dialled: seq<nat>, dial: Dial, n: nat)
    requires Distinct(dialled, n) && dialled != [] && AllFailed(dialled, dial) && |dialled| == n
    ensures Ended(dialled, None, dial, n)
  {
    Pigeonhole(dialled, n);
  }

  lemma FirstDialled(i: nat, dial: Dial)
    ensures [] + [i] == [i] && FailedBefore([i], dial)
  {
  }

  lemma LastOutcome(dialled: seq<nat>, dial: Dial)
    requires dialled != [] && FailedBefore(dialled, dial)
    ensures if dial(|dialled| - 1, dialled[|dialled| - 1]).None?
            then OnlyLastAnswered(dialled, dial) else AllFailed(dialled, dial)
  {
  }

  lemma NextDialled(dialled: seq<nat>, i: nat, dial: Dial)
    requires dialled != [] && AllFailed(dialled, dial)
    ensures FailedBefore(dialled + [i], dial)
    ensures BitsBefore(dialled + [i]) == Some(Tried(dialled))
  {
    assert (dialled + [i])[..|dialled|] == dialled;
  }

  // ----- the critical sections of one connection

  // A step of somebody else that can happen at any time, as long as nobody swaps the list
  // (automatic reconfiguration is never on in tunnel mode).
  ghost predicate Harmless(e: Event, objects: nat, n: nat) {
    && (OnLink(e) ==> e.id < objects)
    && (e.TunnelPick? ==> SomeUntried(e.tried, n))
    && !e.Swap?
  }

  // What everybody else does during the k-th dial, and after k failures before the pick.
  datatype Others = Others(during: nat -> seq<Event>, between: nat -> seq<Event>)

  ghost predicate HarmlessRun(es: seq<Event>, objects: nat, n: nat) {
    forall e :: e in es ==> Harmless(e, objects, n)
  }

  ghost predicate AllHarmless(others: Others, objects: nat, n: nat) {
    forall k: nat :: HarmlessRun(others.during(k), objects, n) && HarmlessRun(others.between(k), objects, n)
  }

  lemma NothingHappens(objects: nat, n: nat)
    ensures HarmlessRun([], objects, n)
  {
  }

  lemma HarmlessAt(es: seq<Event>, k: nat, objects: nat, n: nat)
    requires HarmlessRun(es, objects, n) && k < |es|
    ensures Harmless(es[k], objects, n)
  {
  }

  // The others at one attempt.
  lemma AnyMoment(others: Others, objects: nat, n: nat)
    requires AllHarmless(others, objects, n)
    ensures forall k: nat :: HarmlessRun(others.during(k), objects, n) && HarmlessRun(others.between(k), objects, n)
  {
  }

  function Message(outcome: Option<string>): string {
    if outcome.Some? then outcome.value else ""
  }

  /** Everything that happens up to the pick of the last link dialled. */
  ghost function UpToPick(from: Id, dialled: seq<nat>, dial: Dial, others: Others): seq<Event>
    requires dialled != []
    decreases |dialled|, 0
  {
    var m := |dialled| - 1;
    if m == 0 then [TunnelPick(0)]
    else UpToFailure(from, dialled[..m], dial, others) + others.between(m) + [TunnelPick(Tried(dialled[..m]))]
  }

  ghost function UpToFailure(from: Id, dialled: seq<nat>, dial: Dial, others: Others): seq<Event>
    requires dialled != []
    decreases |dialled|, 1
  {
    var m := |dialled| - 1;
    UpToPick(from, dialled, dial, others) + others.during(|dialled|) +
    [LastError(from + dialled[m], Message(dial(m, dialled[m])))]
  }

  // The whole connection: it ends with a link that answered, or with the last failure.
  ghost function TunnelRun(from: Id, dialled: seq<nat>, dial: Dial, others: Others): seq<Event>
    requires dialled != []
  {
    var m := |dialled| - 1;
    if dial(m, dialled[m]).None?
    then UpToPick(from, dialled, dial, others) + others.during(|dialled|) + [Tally(from + dialled[m], 0, 0, 1)]
    else UpToFailure(from, dialled, dial, others)
  }

  ghost predicate Quiet(others: Others) {
    forall k: nat :: others.during(k) == [] && others.between(k) == []
  }

  lemma {:induction false} QuietFailures(from: Id, dialled: seq<nat>, dial: Dial, others: Others)
    requires |dialled| > 0 && Quiet(others)
    ensures var es := UpToFailure(from, dialled, dial, others);
            && |es| == 2 * |dialled|
            && forall k :: 0 <= k < |dialled| ==>
                 && es[2 * k] == TunnelPick(Tried(dialled[..k]))
                 && es[2 * k + 1] == LastError(from + dialled[k], Message(dial(k, dialled[k])))
  {
    hide Tried, Message;
    var m := |dialled| - 1;
    if m == 0 {
      NothingTried();
      assert dialled[..0] == [];
    } else {
      var failed := dialled[..m];
      QuietFailures(from, failed, dial, others);
      forall k | 0 <= k < m ensures dialled[..k] == failed[..k] && dialled[k] == failed[k] {
      }
    }
  }

  /** What a connection does, event by event, when nobody else does anything: for each link
      dialled a pick with the bitset of those before it, and the error of its failure; at the
      end, if the last link answered, one more connection counted on it and no error. */
  lemma QuietTunnelRun(from: Id, dialled: seq<nat>, dial: Dial, others: Others)
    requires |dialled| > 0 && FailedBefore(dialled, dial) && Quiet(others)
    ensures var es, m := TunnelRun(from, dialled, dial, others), |dialled| - 1;
            && |es| == 2 * |dialled|
            && (forall k :: 0 <= k <= m ==> es[2 * k] == TunnelPick(Tried(dialled[..k])))
            && (forall k :: 0 <= k < m ==> es[2 * k + 1] == LastError(from + dialled[k], dial(k, dialled[k]).value))
            && es[2 * m + 1] == match dial(m, dialled[m])
                                case None => Tally(from + dialled[m], 0, 0, 1)
                                case Some(message) => LastError(from + dialled[m], message)
  {
    hide Tried, UpToPick, UpToFailure;
    var m := |dialled| - 1;
    QuietFailures(from, dialled, dial, others);
    EndUnfolds(from, dialled, dial, others);
    FailureUnfolds(from, dialled, dial, others);
  }

  lemma FailureUnfolds(from: Id, dialled: seq<nat>, dial: Dial, others: Others)
    requires |dialled| > 0
    ensures var m := |dialled| - 1;
            UpToFailure(from, dialled, dial, others) ==
            UpToPick(from, dialled, dial, others) + others.during(|dialled|) +
            [LastError(from + dialled[m], Message(dial(m, dialled[m])))]
  {
  }

  // ----- which link each pick finds

  // A pick in state t with this bitset finds link i.
  ghost predicate Chosen(t: State, bits: nat, i: nat)
    requires Wf(t)
  {
    && t.cursor < |t.live| && SomeUntried(bits, |t.live|)
    && i == TunnelChoice(LiveLinks(t), t.cursor, bits)
  }

  // Of the links not yet dialled, i is the first in cyclic order from the cursor.
  ghost predicate NearestLeft(t: State, dialled: seq<nat>, i: nat)
    requires Wf(t)
  {
    var n := |t.live|;
    && i < n && i !in dialled
    && forall j: nat :: j < n && j !in dialled ==> Distance(t.cursor, i, n) <= Distance(t.cursor, j, n)
  }

  // The state in which link number k of the connection is picked: after k failures, and
  // what the others did since the last of them.
  ghost function StateAtPick(s: State, from: Id, dialled: seq<nat>, dial: Dial, others: Others, k: nat): (t: State)
    requires Wf(s) && k <= |dialled|
    ensures Wf(t)
  {
    if k == 0 then s else Run(s, UpToFailure(from, dialled[..k], dial, others) + others.between(k))
  }

  /** Every link was dialled in its turn: it is the nearest one left in the state that its
      own pick found. */
  ghost predicate PickedInTurn(s: State, from: Id, dialled: seq<nat>, dial: Dial, others: Others)
    requires Wf(s)
  {
    forall k :: 0 <= k < |dialled| ==>
      NearestLeft(StateAtPick(s, from, dialled, dial, others, k), dialled[..k], dialled[k])
  }

  lemma ChosenIsNearest(t: State, dialled: seq<nat>, i: nat)
    requires Wf(t) && Chosen(t, Tried(dialled), i)
    ensures NearestLeft(t, dialled, i)
  {
    hide Tried, Bit, Distance, AfterTunnelPick;
    var n := |t.live|;
    TunnelChoiceIsNearest(LiveLinks(t), t.cursor, Tried(dialled));
    TriedIsExact(dialled, i);
    forall j: nat | j < n && j !in dialled ensures Distance(t.cursor, i, n) <= Distance(t.cursor, j, n) {
      TriedIsExact(dialled, j);
    }
  }

  lemma FirstInTurn(s: State, from: Id, i: nat, dial: Dial, others: Others)
    requires Wf(s) && Chosen(s, 0, i)
    ensures PickedInTurn(s, from, [i], dial, others)
  {
    hide Chosen, NearestLeft, Wf;
    NothingTried();
    ChosenIsNearest(s, [], i);
    assert [i][..0] == [];
  }

  lemma NextInTurn(s: State, from: Id, dialled: seq<nat>, i: nat, dial: Dial, others: Others)
    requires Wf(s) && |dialled| > 0 && PickedInTurn(s, from, dialled, dial, others)
    requires Chosen(StateAtPick(s, from, dialled, dial, others, |dialled|), Tried(dialled), i)
    ensures PickedInTurn(s, from, dialled + [i], dial, others)
  {
    hide Chosen, NearestLeft, Wf, Run, UpToFailure, Tried;
    var next, m := dialled + [i], |dialled|;
    ChosenIsNearest(StateAtPick(s, from, dialled, dial, others, m), dialled, i);
    assert dialled[..m] == dialled;
    forall k | 0 <= k <= m
      ensures NearestLeft(StateAtPick(s, from, next, dial, others, k), next[..k], next[k])
    {
      assert next[..k] == dialled[..k];
    }
  }

  lemma NextPickState(s: State, u: State, from: Id, dialled: seq<nat>, dial: Dial, others: Others)
    requires Wf(s) && Wf(u) && |dialled| > 0 && u == Run(s, UpToFailure(from, dialled, dial, others))
    ensures StateAtPick(s, from, dialled, dial, others, |dialled|) == Run(u, others.between(|dialled|))
  {
    hide Run, UpToFailure;
    assert dialled[..|dialled|] == dialled;
    RunConcat(s, UpToFailure(from, dialled, dial, others), others.between(|dialled|));
  }

  lemma RunsFromStart(s: State, from: Id, i: nat, dial: Dial, others: Others)
    requires Wf(s)
    ensures Run(s, UpToPick(from, [i], dial, others)) == Step(s, TunnelPick(0))
  {
    RunOneMore(s, [], TunnelPick(0));
  }

  ghost function DialStep(id: Id, outcome: Option<string>): Event {
    if outcome.None? then Tally(id, 0, 0, 1) else LastError(id, Message(outcome))
  }

  lemma DialStepGiven(id: Id, outcome: Option<string>)
    ensures DialStep(id, outcome) == if outcome.None? then Tally(id, 0, 0, 1) else LastError(id, outcome.value)
  {
  }

  lemma RunThen(s: State, start: seq<Event>, next: seq<Event>, e: Event)
    requires Wf(s)
    ensures Run(s, start + next + [e]) == Step(Run(Run(s, start), next), e)
  {
    hide Run, Step;
    RunConcat(s, start, next);
    RunOneMore(s, start + next, e);
  }

  lemma EndUnfolds(from: Id, dialled: seq<nat>, dial: Dial, others: Others)
    requires dialled != []
    ensures var m := |dialled| - 1;
            var es := UpToPick(from, dialled, dial, others) + others.during(|dialled|) +
                      [DialStep(from + dialled[m], dial(m, dialled[m]))];
            && TunnelRun(from, dialled, dial, others) == es
            && (dial(m, dialled[m]).Some? ==> UpToFailure(from, dialled, dial, others) == es)
  {
  }

  lemma PickUnfolds(from: Id, dialled: seq<nat>, i: nat, dial: Dial, others: Others)
    requires |dialled| > 0
    ensures UpToPick(from, dialled + [i], dial, others) ==
            UpToFailure(from, dialled, dial, others) + others.between(|dialled|) + [TunnelPick(Tried(dialled))]
  {
    assert (dialled + [i])[..|dialled|] == dialled;
  }

  // The last attempt: state t at its pick, state u once the dial is recorded.
  lemma RunEnds(s: State, t: State, u: State, from: Id, dialled: seq<nat>, dial: Dial, others: Others)
    requires Wf(s) && Wf(t) && dialled != []
    requires t == Run(s, UpToPick(from, dialled, dial, others))
    requires var m := |dialled| - 1;
             u == Step(Run(t, others.during(|dialled|)), DialStep(from + dialled[m], dial(m, dialled[m])))
    ensures u == Run(s, TunnelRun(from, dialled, dial, others))
    ensures dial(|dialled| - 1, dialled[|dialled| - 1]).Some? ==> u == Run(s, UpToFailure(from, dialled, dial, others))
  {
    hide *;
    var m := |dialled| - 1;
    EndUnfolds(from, dialled, dial, others);
    var last := DialStep(from + dialled[m], dial(m, dialled[m]));
    RunThen(s, UpToPick(from, dialled, dial, others), others.during(|dialled|), last);
  }

  // One more pick after a failed attempt.
  lemma RunGoesOn(s: State, u: State, v: State, from: Id, dialled: seq<nat>, i: nat, dial: Dial, others: Others)
    requires Wf(s) && Wf(u) && |dialled| > 0
    requires u == Run(s, UpToFailure(from, dialled, dial, others))
    requires v == Step(Run(u, others.between(|dialled|)), TunnelPick(Tried(dialled)))
    ensures v == Run(s, UpToPick(from, dialled + [i], dial, others))
  {
    hide *;
    var es, next, e := UpToFailure(from, dialled, dial, others), others.between(|dialled|), TunnelPick(Tried(dialled));
    PickUnfolds(from, dialled, i, dial, others);
    RunThen(s, es, next, e);
  }

  // A link that the bitset leaves clear has not been dialled.
  lemma NewToDialled(dialled: seq<nat>, i: nat, n: nat)
    requires Distinct(dialled, n) && i < n && Bit(Tried(dialled), i) == 0
    ensures Distinct(dialled + [i], n) && |dialled| < n
  {
    hide Tried, Bit;
    TriedIsExact(dialled, i);
    Pigeonhole(dialled + [i], n);
  }
}
