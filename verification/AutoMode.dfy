/**
Automatic reconfiguration (gui/automode.go:101-254): from test results to a new list on
the running dispatcher.
*/
module AutoMode {
  import opened Links
  import opened Rotation
  import opened Engine
  import opened Fairness
  import opened Texts
  import opened Ratios
  import opened Parsing
  import Dispatching

  // ----- which connections appeared and which were lost

  // The entries of xs that are not in ys, in order.
  ghost function Without(xs: seq<string>, ys: seq<string>): seq<string> {
    if xs == [] then []
    else
      var m := |xs| - 1;
      Without(xs[..m], ys) + (if xs[m] in ys then [] else [xs[m]])
  }

  method DiffSets(current: seq<string>, next: seq<string>) returns (added: seq<string>, removed: seq<string>)
    ensures added == Without(next, current) && removed == Without(current, next)
  {
    var inCurrent := SetOf(current);
    var inNext := SetOf(next);
    added := Missing(next, inCurrent, current);
    removed := Missing(current, inNext, next);
  }

  method SetOf(xs: seq<string>) returns (members: set<string>)
    ensures forall x :: x in members <==> x in xs
  {
    members := {};
    for i := 0 to |xs|
      invariant forall x :: x in members <==> x in xs[..i]
    {
      members := members + {xs[i]};
    }
    assert xs[..|xs|] == xs;
  }

  method Missing(xs: seq<string>, members: set<string>, ghost ys: seq<string>) returns (r: seq<string>)
    requires forall x :: x in members <==> x in ys
    ensures r == Without(xs, ys)
  {
    r := [];
    for i := 0 to |xs|
      invariant r == Without(xs[..i], ys)
    {
      assert xs[..i + 1][..i] == xs[..i];
      if xs[i] !in members {
        r := r + [xs[i]];
      }
    }
    assert xs[..|xs|] == xs;
  }

  lemma OneMoreLeft(xs: seq<string>, x: string, ys: seq<string>)
    ensures Without(xs + [x], ys) == Without(xs, ys) + if x in ys then [] else [x]
    ensures Without([], ys) == []
  {
    assert (xs + [x])[..|xs|] == xs;
  }

  /** What is left keeps its order and its repetitions. */
  lemma {:induction false} WithoutOverConcat(xs: seq<string>, zs: seq<string>, ys: seq<string>)
    ensures Without(xs + zs, ys) == Without(xs, ys) + Without(zs, ys)
    decreases |zs|
  {
    hide Without;
    if zs == [] {
      OneMoreLeft(xs, "", ys);
      assert xs + zs == xs;
    } else {
      var front, last := zs[..|zs| - 1], zs[|zs| - 1];
      WithoutOverConcat(xs, front, ys);
      OneMoreLeft(xs + front, last, ys);
      OneMoreLeft(front, last, ys);
      assert xs + zs == xs + front + [last] && zs == front + [last];
    }
  }

  lemma {:induction false} WithoutIsExact(xs: seq<string>, ys: seq<string>, x: string)
    ensures x in Without(xs, ys) <==> x in xs && x !in ys
  {
    if xs != [] {
      var m := |xs| - 1;
      WithoutIsExact(xs[..m], ys, x);
      assert xs == xs[..m] + [xs[m]];
    }
  }

  /** A change is seen exactly when the sets differ, whatever the order or repetitions. */
  lemma NoChangeIffSameSet(current: seq<string>, next: seq<string>)
    ensures Without(next, current) == [] && Without(current, next) == [] <==>
            forall x :: x in current <==> x in next
  {
    hide Without;
    forall x
      ensures x in Without(next, current) <==> x in next && x !in current
      ensures x in Without(current, next) <==> x in current && x !in next
    {
      WithoutIsExact(next, current, x);
      WithoutIsExact(current, next, x);
    }
    if Without(next, current) != [] {
      assert Without(next, current)[0] in Without(next, current);
    }
    if Without(current, next) != [] {
      assert Without(current, next)[0] in Without(current, next);
    }
  }

  // The address without its port, or whole if it has none.
  function HostPart(address: string): string {
    match SplitHostPort(address)
    case Some((host, _)) => host
    case None => address
  }

  method AddressesToIPs(addresses: seq<string>) returns (out: seq<string>)
    ensures |out| == |addresses| && forall k :: 0 <= k < |out| ==> out[k] == HostPart(addresses[k])
  {
    out := [];
    for i := 0 to |addresses|
      invariant |out| == i && forall k :: 0 <= k < i ==> out[k] == HostPart(addresses[k])
    {
      var split := SplitHostPort(addresses[i]);
      if split.Some? {
        out := out + [split.value.0];
        continue;
      }
      out := out + [addresses[i]];
    }
  }

  // ----- reconfiguration

  // Positions of the results that carried traffic, in order.
  ghost function Working(results: seq<TestResult>): (r: seq<nat>)
    ensures forall k :: 0 <= k < |r| ==> r[k] < |results| && results[r[k]].Works()
    ensures forall j, k :: 0 <= j < k < |r| ==> r[j] < r[k]
  {
    if results == [] then []
    else
      var m := |results| - 1;
      Working(results[..m]) + (if results[m].Works() then [m] else [])
  }

  lemma {:induction false} WorkingIsComplete(results: seq<TestResult>, k: nat)
    requires k < |results|
    ensures k in Working(results) <==> results[k].error == "" && results[k].downloadBps > 0.0
  {
    var m := |results| - 1;
    if k < m {
      WorkingIsComplete(results[..m], k);
    }
  }

  datatype Outcome = Cancelled | NothingUsable | NotRebuilt(error: ParseError) | Applied(links: seq<Link>)

  // The new list: a parsed entry for every working result, with the ratio suggested.
  ghost predicate Rebuilt(results: seq<TestResult>, ratios: map<string, int>, links: seq<Link>, net: Network) {
    && |links| == |Working(results)| > 0
    && forall k :: 0 <= k < |links| ==>
         var ip := results[Working(results)[k]].ip;
         && links[k].Fresh() && ip in ratios
         && ParseEntry(Formatted(ip, if ratios[ip] < 1 then 1 else ratios[ip]), false, net) == Ok(links[k])
  }

  // The entry of working result number k, parsed.
  ghost function EntryFor(results: seq<TestResult>, ratios: map<string, int>, k: nat, net: Network): Result<Link>
    requires k < |Working(results)|
  {
    var ip := results[Working(results)[k]].ip;
    ParseEntry(Formatted(ip, if ip in ratios && ratios[ip] >= 1 then ratios[ip] else 1), false, net)
  }

  ghost predicate AllParse(results: seq<TestResult>, ratios: map<string, int>, net: Network) {
    forall k :: 0 <= k < |Working(results)| ==> EntryFor(results, ratios, k, net).Ok?
  }

  // The error of the first entry that does not parse.
  ghost predicate FirstError(results: seq<TestResult>, ratios: map<string, int>, net: Network, error: ParseError) {
    exists k :: && 0 <= k < |Working(results)| && EntryFor(results, ratios, k, net) == Err(error)
                && forall j :: 0 <= j < k ==> EntryFor(results, ratios, j, net).Ok?
  }

  // An address that the machine has an interface for.
  predicate OnInterface(ip: string, net: Network) {
    net.parseIP(ip).Some? && net.interfaceOf(ip) != ""
  }

  // The error for the first result that worked on an address no interface has.
  ghost predicate FirstAstray(results: seq<TestResult>, net: Network, error: ParseError) {
    exists k ::
      && 0 <= k < |results| && results[k].Works() && !OnInterface(results[k].ip, net)
      && (forall j :: 0 <= j < k && results[j].Works() ==> OnInterface(results[j].ip, net))
      && error == if net.parseIP(results[k].ip).None? then InvalidAddress(results[k].ip)
                  else NoInterface(results[k].ip)
  }

  // No address that worked contains the separator of an entry.
  ghost predicate PlainAddresses(results: seq<TestResult>) {
    forall k :: 0 <= k < |results| && results[k].Works() ==> '@' !in results[k].ip
  }

  lemma EntryOnInterface(results: seq<TestResult>, ratios: map<string, int>, k: nat, net: Network)
    requires k < |Working(results)| && PlainLiterals(net) && PlainAddresses(results)
    requires forall ip :: ip in ratios ==> ratios[ip] <= 10
    ensures var ip := results[Working(results)[k]].ip;
            && (EntryFor(results, ratios, k, net).Ok? <==> OnInterface(ip, net))
            && (!OnInterface(ip, net) ==>
                  EntryFor(results, ratios, k, net) ==
                  Err(if net.parseIP(ip).None? then InvalidAddress(ip) else NoInterface(ip)))
  {
    hide ParseEntry, Formatted, Working, SplitHostPort, Suffix;
    var ip := results[Working(results)[k]].ip;
    var ratio := if ip in ratios && ratios[ip] >= 1 then ratios[ip] else 1;
    FormattedIsEntry(ip, ratio);
    InterfaceEntryParses(ip, Some(ratio), "", net);
  }

  /** When the results apply: every entry parses exactly when every address that worked is a
      literal with an interface, and otherwise the error is about the first that is not. */
  lemma AppliesIff(results: seq<TestResult>, ratios: map<string, int>, net: Network)
    requires PlainLiterals(net) && PlainAddresses(results)
    requires forall ip :: ip in ratios ==> ratios[ip] <= 10
    ensures AllParse(results, ratios, net) <==>
            forall k :: 0 <= k < |results| && results[k].Works() ==> OnInterface(results[k].ip, net)
    ensures forall error :: FirstError(results, ratios, net, error) ==> FirstAstray(results, net, error)
  {
    hide Working, OnInterface, EntryFor, PlainLiterals, PlainAddresses;
    var w := Working(results);
    forall k | 0 <= k < |results| && results[k].Works() ensures k in w {
      WorkingIsComplete(results, k);
    }
    forall k | 0 <= k < |w| ensures EntryFor(results, ratios, k, net).Ok? <==> OnInterface(results[w[k]].ip, net) {
      EntryOnInterface(results, ratios, k, net);
    }
    if AllParse(results, ratios, net) {
      forall k | 0 <= k < |results| && results[k].Works() ensures OnInterface(results[k].ip, net) {
        var j :| 0 <= j < |w| && w[j] == k;
        assert EntryFor(results, ratios, j, net).Ok?;
      }
    }
    forall error | FirstError(results, ratios, net, error) ensures FirstAstray(results, net, error) {
      FirstErrorAstray(results, ratios, net, error);
    }
  }

  lemma FirstErrorAstray(results: seq<TestResult>, ratios: map<string, int>, net: Network, error: ParseError)
    requires PlainLiterals(net) && PlainAddresses(results) && FirstError(results, ratios, net, error)
    requires forall ip :: ip in ratios ==> ratios[ip] <= 10
    ensures FirstAstray(results, net, error)
  {
    hide Working, OnInterface, EntryFor, PlainLiterals, PlainAddresses;
    var w := Working(results);
    var k :| && 0 <= k < |w| && EntryFor(results, ratios, k, net) == Err(error)
             && forall j :: 0 <= j < k ==> EntryFor(results, ratios, j, net).Ok?;
    EntryOnInterface(results, ratios, k, net);
    forall j | 0 <= j < w[k] && results[j].Works() ensures OnInterface(results[j].ip, net) {
      WorkingIsComplete(results, j);
      var i :| 0 <= i < |w| && w[i] == j;
      EntryOnInterface(results, ratios, i, net);
    }
    assert results[w[k]].Works() && !OnInterface(results[w[k]].ip, net);
  }

  method UsableIPs(results: seq<TestResult>) returns (usable: seq<string>)
    ensures |usable| == |Working(results)|
    ensures forall k :: 0 <= k < |usable| ==> usable[k] == results[Working(results)[k]].ip
  {
    usable := [];
    for i := 0 to |results|
      invariant |usable| == |Working(results[..i])|
      invariant forall k :: 0 <= k < |usable| ==> usable[k] == results[Working(results[..i])[k]].ip
    {
      assert results[..i + 1][..i] == results[..i];
      if results[i].error == "" && results[i].downloadBps > 0.0 {
        usable := usable + [results[i].ip];
        continue;
      }
    }
    assert results[..|results|] == results;
  }

  method Format(usable: seq<string>, ratios: map<string, int>) returns (args: seq<string>)
    requires forall k :: 0 <= k < |usable| ==> usable[k] in ratios
    ensures |args| == |usable|
    ensures forall k :: 0 <= k < |args| ==>
              args[k] == Formatted(usable[k], if ratios[usable[k]] < 1 then 1 else ratios[usable[k]])
  {
    args := [];
    for i := 0 to |usable|
      invariant |args| == i
      invariant forall k :: 0 <= k < i ==>
                  args[k] == Formatted(usable[k], if ratios[usable[k]] < 1 then 1 else ratios[usable[k]])
    {
      var ratio := ratios[usable[i]];
      if ratio < 1 {
        ratio := 1;
      }
      args := args + [usable[i] + "@" + Itoa(ratio)];
    }
  }

  /** Applies the test results to the running dispatcher, or leaves it exactly as it was. They
      apply when something worked and every entry parses: for addresses without the
      separator, when each that worked is a literal with an interface. Otherwise the first
      that is not is reported. */
  method Reconfigure(disp: Dispatching.Dispatcher, results: seq<TestResult>, cancelled: bool, net: Network)
    returns (outcome: Outcome, ratios: map<string, int>)
    requires disp.Valid()
    modifies disp`lbList, disp`lbIndex, disp`objects, disp`base
    ensures disp.Valid()
    ensures outcome.Cancelled? <==> cancelled
    ensures !cancelled ==> Assigns(ratios, results, |results|, AllSuggested(results))
    ensures outcome.NothingUsable? <==> !cancelled && Working(results) == []
    ensures outcome.Applied? ==>
              Rebuilt(results, ratios, outcome.links, net) && disp.Abs() == Step(old(disp.Abs()), Swap(outcome.links))
    ensures !outcome.Applied? ==> disp.Abs() == old(disp.Abs())
    ensures outcome.Applied? <==> !cancelled && Working(results) != [] && AllParse(results, ratios, net)
    ensures outcome.NotRebuilt? ==> FirstError(results, ratios, net, outcome.error)
    ensures PlainLiterals(net) && PlainAddresses(results) ==>
              && (outcome.Applied? <==>
                    && !cancelled && (exists k :: 0 <= k < |results| && results[k].Works())
                    && forall k :: 0 <= k < |results| && results[k].Works() ==> OnInterface(results[k].ip, net))
              && (outcome.NotRebuilt? ==> FirstAstray(results, net, outcome.error))
  {
    hide *;
    SomeWork(results);
    ratios := map[];
    if cancelled {
      return Cancelled, ratios;
    }
    var rebuilt: Result<seq<Link>>;
    rebuilt, ratios := Rebuild(results, net);
    if PlainLiterals(net) && PlainAddresses(results) {
      AppliesIff(results, ratios, net);
    }
    if rebuilt.Err? {
      return if rebuilt.error.NoLoadBalancers? then NothingUsable else NotRebuilt(rebuilt.error), ratios;
    }
    var ok := disp.UpdateLoadBalancers(rebuilt.value);
    return Applied(rebuilt.value), ratios;
  }

  // The new list for the results, unless nothing worked or something does not parse.
  method Rebuild(results: seq<TestResult>, net: Network) returns (r: Result<seq<Link>>, ratios: map<string, int>)
    ensures Assigns(ratios, results, |results|, AllSuggested(results))
    ensures r == Err(NoLoadBalancers) <==> Working(results) == []
    ensures r.Ok? ==> r.value != [] && Rebuilt(results, ratios, r.value, net)
    ensures r.Ok? <==> Working(results) != [] && AllParse(results, ratios, net)
    ensures r.Err? && Working(results) != [] ==> FirstError(results, ratios, net, r.error)
    ensures forall ip :: ip in ratios ==> ratios[ip] <= 10
  {
    hide ParseEntry, Formatted, Working, Assigns;
    ratios := SuggestRatios(results);
    var usable := UsableIPs(results);
    if |usable| == 0 {
      return Err(NoLoadBalancers), ratios;
    }
    EveryAddressAssigned(ratios, results);
    var args := Format(usable, ratios);
    r := ParseLoadBalancers(args, false, net);
    EntryErrors(args, net);
    assert forall k :: 0 <= k < |args| ==> ParseEntry(args[k], false, net) == EntryFor(results, ratios, k, net);
  }

  lemma SomeWork(results: seq<TestResult>)
    ensures Working(results) != [] <==> exists k :: 0 <= k < |results| && results[k].Works()
  {
    hide Working;
    if Working(results) != [] {
      assert results[Working(results)[0]].Works();
    }
    if k :| 0 <= k < |results| && results[k].Works() {
      WorkingIsComplete(results, k);
    }
  }

  // An entry's own error is never that the list is empty.
  lemma EntryErrors(args: seq<string>, net: Network)
    ensures forall k :: 0 <= k < |args| ==> ParseEntry(args[k], false, net) != Err(NoLoadBalancers)
  {
  }

  lemma EveryAddressAssigned(ratios: map<string, int>, results: seq<TestResult>)
    requires Assigns(ratios, results, |results|, AllSuggested(results))
    ensures forall k :: 0 <= k < |results| ==> results[k].ip in ratios
  {
  }

  // ----- from measured speed to picks

  ghost predicate DistinctAddresses(results: seq<TestResult>) {
    forall j, k :: 0 <= j < k < |results| ==> results[j].ip != results[k].ip
  }

  lemma AssignedAt(ratios: map<string, int>, results: seq<TestResult>, k: nat)
    requires Assigns(ratios, results, |results|, AllSuggested(results)) && DistinctAddresses(results) && k < |results|
    ensures results[k].ip in ratios && ratios[results[k].ip] == Suggested(results, k)
  {
    hide Suggested;
    assert results[..|results|] == results;
    assert LastFor(results, k);
  }

  /** Each new link has the ratio suggested for its own measurement. */
  lemma RebuiltRatios(results: seq<TestResult>, ratios: map<string, int>, links: seq<Link>, net: Network, k: nat)
    requires Assigns(ratios, results, |results|, AllSuggested(results)) && Rebuilt(results, ratios, links, net)
    requires DistinctAddresses(results) && Measurable(results) && PlainLiterals(net) && k < |links|
    requires |links| == |Working(results)| && net.parseIP(results[Working(results)[k]].ip).Some?
    ensures links[k].ratio == Suggested(results, Working(results)[k])
    ensures HostPart(links[k].address) == results[Working(results)[k]].ip
  {
    hide ParseEntry, Formatted, Working, Suggested, SplitHostPort;
    hide Assigns, AllSuggested, Measurable, PlainLiterals, DistinctAddresses;
    var w := Working(results)[k];
    AssignedAt(ratios, results, w);
    RatioFollowsSpeed(results, w);
    FormattedParsesBack(results[w].ip, Suggested(results, w), net);
  }

  /** Once everything tested works and is applied, the next check sees no change. */
  lemma QuietAfterRebuild(results: seq<TestResult>, ratios: map<string, int>, links: seq<Link>, net: Network,
                          current: seq<string>, next: seq<string>)
    requires Assigns(ratios, results, |results|, AllSuggested(results)) && Rebuilt(results, ratios, links, net)
    requires DistinctAddresses(results) && Measurable(results) && PlainLiterals(net)
    requires forall k :: 0 <= k < |results| ==> results[k].Works() && net.parseIP(results[k].ip).Some?
    requires |current| == |links| == |Working(results)| && |next| == |results|
    requires forall k :: 0 <= k < |current| ==> current[k] == HostPart(links[k].address)
    requires forall k :: 0 <= k < |next| ==> next[k] == results[k].ip
    ensures Without(next, current) == [] && Without(current, next) == []
  {
    hide Assigns, AllSuggested, Rebuilt, Measurable, PlainLiterals, DistinctAddresses;
    hide HostPart, Without, Working, Suggested;
    NoChangeIffSameSet(current, next);
    forall k | 0 <= k < |current| ensures current[k] == results[Working(results)[k]].ip {
      RebuiltRatios(results, ratios, links, net, k);
    }
    forall x | x in next ensures x in current {
      var k :| 0 <= k < |next| && next[k] == x;
      WorkingIsComplete(results, k);
      var j :| 0 <= j < |current| && Working(results)[j] == k;
      assert current[j] == x;
    }
    forall x | x in current ensures x in next {
      var k :| 0 <= k < |current| && current[k] == x;
      assert next[Working(results)[k]] == x;
    }
  }

  // After a swap to a parsed list every counter is zero.
  lemma SwapIsClean(s: State, links: seq<Link>)
    requires Wf(s) && links != [] && forall k :: 0 <= k < |links| ==> links[k].Fresh()
    ensures var t := Step(s, Swap(links));
            && |t.live| == |links| && Balanced(t)
            && forall k :: 0 <= k < |links| ==> LiveLinks(t)[k].ratio == links[k].ratio && LiveLinks(t)[k].current == 0
  {
    hide Step;
    LiveAfterSwap(s, links);
  }

  /** Measured speed to picks: over the first S picks on the new list, S being the sum of
      the ratios of the links in use, each of them gets as many as its suggested ratio. */
  lemma MeasuredSpeedToPicks(s: State, results: seq<TestResult>, ratios: map<string, int>, links: seq<Link>,
                             net: Network, es: seq<Event>, wanted: seq<bool>, i: nat)
    requires Wf(s) && Assigns(ratios, results, |results|, AllSuggested(results)) && Rebuilt(results, ratios, links, net)
    requires DistinctAddresses(results) && Measurable(results) && PlainLiterals(net)
    requires |wanted| == |links| == |Working(results)| && i < |links| && wanted[i]
    requires net.parseIP(results[Working(results)[i]].ip).Some?
    requires Steady(Step(s, Swap(links)), es, wanted)
    requires |Step(s, Swap(links)).live| == |links|
    requires Requests(es) == TotalRatio(Step(s, Swap(links)), wanted)
    ensures Count(Picks(Step(s, Swap(links)), es), i) == Suggested(results, Working(results)[i])
  {
    hide Step, Steady, TotalRatio, Picks, Assigns, ParseEntry, Working, Suggested;
    SwapIsClean(s, links);
    RebuiltRatios(results, ratios, links, net, i);
    ExactCycle(Step(s, Swap(links)), es, wanted, i);
  }
}
