/**
Small cases in which the hypotheses of the longer theorems hold together, so that none of
them is about nothing.
*/
module Witnesses {
  import opened Links
  import opened Scheduling
  import opened Engine
  import opened Fairness
  import opened History
  import opened Texts
  import opened Ratios
  import opened Parsing
  import opened AutoMode

  // One interface, address "1", measured at some speed.
  function OneInterface(): Network {
    Network(t => if t == "1" then Some(false) else None, t => "eth0")
  }

  /** The hypotheses of `AutoMode.RebuiltRatios` hold for one working result. */
  lemma OneRebuilt() returns (net: Network, results: seq<TestResult>, ratios: map<string, int>, links: seq<Link>)
    ensures PlainLiterals(net) && DistinctAddresses(results) && Measurable(results)
    ensures Assigns(ratios, results, |results|, AllSuggested(results)) && Rebuilt(results, ratios, links, net)
    ensures |links| == |Working(results)| == 1 && net.parseIP(results[Working(results)[0]].ip).Some?
    ensures !links[0].isIPv6 && links[0].ratio == 1
  {
    hide SplitHostPort, JoinHostPort, Split, Itoa, Digits, ParseEntry, Formatted;
    net := OneInterface();
    results := [TestResult("1", "", 1.0)];
    ratios := map["1" := 1];
    assert results[..0] == [] && results[..1] == results;
    assert Working([]) == [] && Working(results) == [0];
    assert MinSpeed([]) == MAX_FLOAT64 && MinSpeed(results) == 1.0;
    assert Suggested(results, 0) == 1 by {
      assert 1.0 / 1.0 == 1.0;
      OneStaysOne();
    }
    FormattedParsesBack("1", 1, net);
    links := [ParseEntry(Formatted("1", 1), false, net).value];
  }

  /** On that list, one request is a steady run of one cycle, as `AutoMode.MeasuredSpeedToPicks` asks. */
  lemma OneCycle(links: seq<Link>) returns (s: State, es: seq<Event>, wanted: seq<bool>)
    requires |links| == 1 && links[0].Fresh() && links[0].ratio == 1 && !links[0].isIPv6
    ensures Wf(s) && |wanted| == 1 && wanted[0] && |Step(s, Swap(links)).live| == 1
    ensures Steady(Step(s, Swap(links)), es, wanted) && Requests(es) == TotalRatio(Step(s, Swap(links)), wanted)
  {
    s := State([], [], 0, false, 0);
    es, wanted := [Request(true, false)], [true];
    var t := Step(s, Swap(links));
    LiveAfterSwap(s, links);
    assert LiveLinks(t)[0].ratio == 1 && !LiveLinks(t)[0].excluded;
    assert Front(es) == [] && Run(t, []) == t;
    assert Eligible(LiveLinks(t), true, false) == wanted;
    assert Steady(t, [], wanted) && SteadyStep(t, Last(es), wanted);
    assert Requests([]) == 0;
  }

  // One link that has failed once, with a threshold of one.
  function OneLink(): Link {
    Link("a", "", 1, 0, false, 0, 0, 0, "", false, "", 0, false)
  }

  ghost function OneLinkState(autoExclude: bool): (s: State)
    ensures Wf(s) && LiveLinks(s) == [OneLink()]
  {
    var s := State([OneLink()], [0], 0, autoExclude, 1);
    assert LiveLinks(s) == [OneLink()];
    s
  }

  lemma RunOfTwo(s: State, a: Event, b: Event)
    requires Wf(s)
    ensures Run(s, [a, b]) == Step(Step(s, a), b)
    ensures Enabled(s, a) && Enabled(Step(s, a), b) ==> Legal(s, [a, b])
  {
    RunOneMore(s, [], a);
    RunOneMore(s, [a], b);
  }

  // A state with one link that has this record.
  ghost predicate Holding(s: State, l: Link, autoExclude: bool) {
    s == State([l], [0], 0, autoExclude, 1)
  }

  lemma FailureOnOne(s: State, l: Link, autoExclude: bool, reason: string)
    requires Wf(s) && Holding(s, l, autoExclude)
    ensures Enabled(s, Failure(0, reason))
    ensures Holding(Step(s, Failure(0, reason)), Failed(l, autoExclude, 1, reason), autoExclude)
    ensures StepAlerts(s, Failure(0, reason), 0) == FailureAlerts(l, autoExclude, 1, reason)
  {
    hide Failed, FailureAlerts, Wf;
    LinkStepWrites(s, Failure(0, reason));
  }

  lemma SwitchOnOne(s: State, l: Link)
    requires Wf(s) && Holding(s, l, false)
    ensures Holding(Step(s, SetAuto(true)), l, true)
  {
  }

  lemma ProbeOnOne(s: State, l: Link)
    requires Wf(s) && Holding(s, l, true) && l.address == "a"
    ensures Holding(Step(s, ProbeRestore(0, "a")), Restored(l), true)
  {
    hide Step, Restored, Wf;
    Engine.RestoreStep(s, 0, "a");
    assert LiveLinks(s) == [l];
  }

  lemma TwoFailures(l: Link)
    requires l == OneLink()
    ensures var off, on := Failed(l, false, 1, "x"), Failed(l, true, 1, "x");
            && !off.excluded && off.reported && off.failures == 1
            && Restored(on).reported && !Restored(on).excluded && Restored(on).failures == 0 && on.address == "a"
  {
  }

  lemma ReportedFailsSilently(l: Link, reason: string)
    requires l.reported && !l.excluded && l.failures >= 0
    ensures Failed(l, true, 1, reason).excluded && FailureAlerts(l, true, 1, reason) == []
  {
  }

  lemma StartsUntouched(autoExclude: bool)
    ensures Untouched(OneLinkState(autoExclude)) && Holding(OneLinkState(autoExclude), OneLink(), autoExclude)
  {
  }

  /** Silent exclusion happens: a link that alerted while auto-exclusion was off is taken
      out without a word once it is on. */
  lemma SilentAfterSwitch() returns (s: State, es: seq<Event>, t: State, e: Event)
    ensures Wf(s) && Untouched(s) && Legal(s, es) && ParsedSwaps(es) && t == Run(s, es)
    ensures Wf(t) && Enabled(t, e) && |t.heap| == |Step(t, e).heap| == 1 && e.Failure? && e.id == 0
    ensures !t.heap[0].excluded && Step(t, e).heap[0].excluded && StepAlerts(t, e, 0) == []
  {
    hide Run, Step, Failed, FailureAlerts, Untouched, OneLink, OneLinkState, StepAlerts, Enabled, Legal, Wf;
    s, es, e := OneLinkState(false), [Failure(0, "x"), SetAuto(true)], Failure(0, "y");
    StartsUntouched(false);
    FailureOnOne(s, OneLink(), false, "x");
    SwitchOnOne(Step(s, Failure(0, "x")), Failed(OneLink(), false, 1, "x"));
    SwitchIsEnabled(Step(s, Failure(0, "x")));
    RunOfTwo(s, Failure(0, "x"), SetAuto(true));
    t := Run(s, es);
    TwoFailures(OneLink());
    FailureOnOne(t, Failed(OneLink(), false, 1, "x"), true, "y");
    ReportedFailsSilently(Failed(OneLink(), false, 1, "x"), "y");
  }

  lemma SwitchIsEnabled(s: State)
    ensures Enabled(s, SetAuto(true)) && Enabled(s, ProbeRestore(0, "a"))
  {
  }

  /** And so is one that a probe had put back: its next exclusion is silent unless a
      connection over it succeeded in between. */
  lemma SilentAfterProbe() returns (s: State, es: seq<Event>, t: State, e: Event)
    ensures Wf(s) && Untouched(s) && Legal(s, es) && ParsedSwaps(es) && t == Run(s, es)
    ensures Wf(t) && Enabled(t, e) && |t.heap| == |Step(t, e).heap| == 1 && e.Failure? && e.id == 0
    ensures !t.heap[0].excluded && Step(t, e).heap[0].excluded && StepAlerts(t, e, 0) == []
  {
    hide Run, Step, Failed, FailureAlerts, Restored, Untouched, OneLink, OneLinkState, StepAlerts, Enabled, Legal, Wf;
    s, es, e := OneLinkState(true), [Failure(0, "x"), ProbeRestore(0, "a")], Failure(0, "y");
    var failed := Failed(OneLink(), true, 1, "x");
    StartsUntouched(true);
    TwoFailures(OneLink());
    FailureOnOne(s, OneLink(), true, "x");
    ProbeOnOne(Step(s, Failure(0, "x")), failed);
    SwitchIsEnabled(Step(s, Failure(0, "x")));
    RunOfTwo(s, Failure(0, "x"), ProbeRestore(0, "a"));
    t := Run(s, es);
    FailureOnOne(t, Restored(failed), true, "y");
    ReportedFailsSilently(Restored(failed), "y");
  }

  /** The hypotheses of `History.OffMeansManual` hold after one manual exclusion. */
  lemma OneExcludedByHand() returns (s: State, es: seq<Event>)
    ensures Wf(s) && Untouched(s) && !s.autoExclude && Legal(s, es) && ParsedSwaps(es) && WellPaired(es)
    ensures !Run(s, es).autoExclude && Halfway(es) == 0
    ensures |Run(s, es).live| == 1 && LiveLinks(Run(s, es))[0].excluded
  {
    hide Run, Step, SetManually, Untouched, OneLink, OneLinkState, Enabled, Legal, Wf;
    var e := SetExcluded("a", true);
    s, es := OneLinkState(false), [e];
    StartsUntouched(false);
    ByHandOnOne(s);
    NothingRun(s);
    RunOneMore(s, [], e);
    assert [] + [e] == es && Front(es) == [];
    assert Halfway([]) == 0 && WellPaired([]);
  }

  lemma ByHandOnOne(s: State)
    requires Wf(s) && Holding(s, OneLink(), false)
    ensures Enabled(s, SetExcluded("a", true)) && Legal(s, [])
    ensures Holding(Step(s, SetExcluded("a", true)), SetManually(OneLink(), true), false)
    ensures SetManually(OneLink(), true).excluded
  {
    hide Step, Wf;
    Engine.ManualStep(s, "a", true);
    assert LiveLinks(s) == [OneLink()] && FirstAt([OneLink()], "a") == 0;
  }
}
