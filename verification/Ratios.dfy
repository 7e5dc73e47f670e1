/**
From measured speeds to contention ratios (dispatcher/speedtest.go:235-273), with real
numbers for the original's floats.
*/
module Ratios {

  datatype TestResult = TestResult(ip: string, error: string, downloadBps: real)
  {
    predicate Works() {
      error == "" && downloadBps > 0.0
    }
  }

  const MAX_FLOAT64: real := 179769313486231570814527423731704356798070567525844996598917476803157260780028538760589558632766878171540458953514382464234321326889464182768467546703537516986049910576551282076245490090389328944075868508455133942304583236903222948165808559332123347764797926207244723168738177180919299881250404026184124858368.0

  // The least speed of a working link, or the float maximum.
  ghost function MinSpeed(results: seq<TestResult>): (m: real)
    ensures m > 0.0
  {
    if results == [] then MAX_FLOAT64
    else
      var m, r := MinSpeed(results[..|results| - 1]), results[|results| - 1];
      if r.Works() && r.downloadBps < m then r.downloadBps else m
  }

  // Rounds half away from zero, for what is not negative.
  function Round(x: real): int
    requires x >= 0.0
  {
    (x + 0.5).Floor
  }

  function Clamped(n: int): int {
    if n < 1 then 1 else if n > 10 then 10 else n
  }

  function RatioFor(r: TestResult, minSpeed: real): (ratio: int)
    requires minSpeed > 0.0
    ensures 1 <= ratio <= 10
  {
    if !r.Works() then 1 else Clamped(Round(r.downloadBps / minSpeed))
  }

  ghost function Suggested(results: seq<TestResult>, k: nat): int
    requires k < |results|
  {
    if MinSpeed(results) == MAX_FLOAT64 then 1 else RatioFor(results[k], MinSpeed(results))
  }

  // No later result is about the same address.
  ghost predicate LastFor(results: seq<TestResult>, k: nat)
    requires k < |results|
  {
    forall j :: k < j < |results| ==> results[j].ip != results[k].ip
  }

  // The map holds the value of the last result for each address.
  ghost predicate Assigns(out: map<string, int>, results: seq<TestResult>, n: nat, value: nat -> int)
    requires n <= |results|
  {
    && (forall ip :: ip in out <==> exists k :: 0 <= k < n && results[k].ip == ip)
    && (forall k: nat :: k < n && LastFor(results[..n], k) ==> out[results[k].ip] == value(k))
  }

  // A result that is the last for its address is so already among fewer.
  lemma LastAmongFewer(results: seq<TestResult>, n: nat, k: nat)
    requires k < n < |results| && LastFor(results[..n + 1], k)
    ensures LastFor(results[..n], k) && results[n].ip != results[k].ip
  {
    var more := results[..n + 1];
    assert more[n].ip != more[k].ip;
    forall j | k < j < n ensures results[..n][j].ip != results[..n][k].ip {
      assert more[j].ip != more[k].ip;
    }
  }

  lemma OneMoreAssigned(out: map<string, int>, results: seq<TestResult>, n: nat, value: nat -> int)
    requires n < |results| && Assigns(out, results, n, value)
    ensures Assigns(out[results[n].ip := value(n)], results, n + 1, value)
  {
    hide LastFor;
    var out' := out[results[n].ip := value(n)];
    forall ip | ip in out' ensures exists k :: 0 <= k < n + 1 && results[k].ip == ip {
      if ip == results[n].ip {
        assert results[n].ip == ip;
      } else {
        var k :| 0 <= k < n && results[k].ip == ip;
      }
    }
    forall k: nat | k < n + 1 && LastFor(results[..n + 1], k) ensures out'[results[k].ip] == value(k) {
      if k < n {
        LastAmongFewer(results, n, k);
      }
    }
  }

  method LeastSpeed(results: seq<TestResult>) returns (minSpeed: real)
    ensures minSpeed == MinSpeed(results)
  {
    minSpeed := MAX_FLOAT64;
    for i := 0 to |results|
      invariant minSpeed == MinSpeed(results[..i])
    {
      assert results[..i + 1][..i] == results[..i];
      if results[i].error == "" && results[i].downloadBps > 0.0 && results[i].downloadBps < minSpeed {
        minSpeed := results[i].downloadBps;
      }
    }
    assert results[..|results|] == results;
  }

  ghost function AllSuggested(results: seq<TestResult>): nat -> int {
    (k: nat) => if k < |results| then Suggested(results, k) else 0
  }

  // The ratio of one result, in the original's steps.
  method RatioOf(r: TestResult, minSpeed: real) returns (ratio: int)
    requires minSpeed > 0.0
    ensures ratio == RatioFor(r, minSpeed)
  {
    hide Round;
    if r.error != "" || r.downloadBps <= 0.0 {
      return 1;
    }
    ratio := Round(r.downloadBps / minSpeed);
    if ratio < 1 {
      ratio := 1;
    }
    if ratio > 10 {
      ratio := 10;
    }
  }

  /** A ratio from 1 to 10 for every address tested; of several results for one address the
      last counts. */
  method SuggestRatios(results: seq<TestResult>) returns (out: map<string, int>)
    ensures Assigns(out, results, |results|, AllSuggested(results))
    ensures forall ip :: ip in out ==> 1 <= out[ip] <= 10
  {
    hide MinSpeed, RatioFor, Assigns;
    var minSpeed := LeastSpeed(results);
    out := map[];
    NothingAssigned(results, AllSuggested(results));
    if minSpeed == MAX_FLOAT64 {
      for i := 0 to |results|
        invariant Assigns(out, results, i, AllSuggested(results))
        invariant forall ip :: ip in out ==> 1 <= out[ip] <= 10
      {
        OneMoreAssigned(out, results, i, AllSuggested(results));
        out := out[results[i].ip := 1];
      }
      return;
    }

    for i := 0 to |results|
      invariant Assigns(out, results, i, AllSuggested(results))
      invariant forall ip :: ip in out ==> 1 <= out[ip] <= 10
    {
      OneMoreAssigned(out, results, i, AllSuggested(results));
      var ratio := RatioOf(results[i], minSpeed);
      out := out[results[i].ip := ratio];
    }
  }

  lemma NothingAssigned(results: seq<TestResult>, value: nat -> int)
    ensures Assigns(map[], results, 0, value)
  {
  }

  // ----- what the ratios mean

  // Every working link was measured below the float maximum.
  ghost predicate Measurable(results: seq<TestResult>) {
    forall k :: 0 <= k < |results| && results[k].Works() ==> results[k].downloadBps < MAX_FLOAT64
  }

  /** The speed divided by is that of a slowest working link, whenever one works. */
  lemma {:induction false} MinSpeedIsSlowest(results: seq<TestResult>, k: nat)
    requires Measurable(results) && k < |results| && results[k].Works()
    ensures MinSpeed(results) <= results[k].downloadBps
    ensures exists j :: 0 <= j < |results| && results[j].Works() && results[j].downloadBps == MinSpeed(results)
  {
    var m := |results| - 1;
    var front := results[..m];
    if k < m {
      MinSpeedIsSlowest(front, k);
      var j :| 0 <= j < m && front[j].Works() && front[j].downloadBps == MinSpeed(front);
      assert results[j] == front[j];
    } else {
      MinSpeedBelow(front);
      if MinSpeed(results) != results[m].downloadBps {
        var j :| 0 <= j < m && front[j].Works() && front[j].downloadBps == MinSpeed(front);
        assert results[j] == front[j];
      }
    }
  }

  lemma {:induction false} MinSpeedBelow(results: seq<TestResult>)
    ensures MinSpeed(results) == MAX_FLOAT64
            || exists j :: 0 <= j < |results| && results[j].Works() && results[j].downloadBps == MinSpeed(results)
  {
    if results != [] {
      var m := |results| - 1;
      var front := results[..m];
      MinSpeedBelow(front);
      if MinSpeed(front) != MAX_FLOAT64 {
        var j :| 0 <= j < m && front[j].Works() && front[j].downloadBps == MinSpeed(front);
        assert results[j] == front[j];
      }
    }
  }

  lemma RoundIsNear(x: real)
    requires x >= 1.0
    ensures 1 <= Clamped(Round(x)) <= 10
    ensures x <= 10.0 ==> -0.5 < Clamped(Round(x)) as real - x <= 0.5
    ensures x >= 10.0 ==> Clamped(Round(x)) == 10
  {
  }

  lemma Monotone(x: real, y: real)
    requires 0.0 <= x <= y
    ensures Clamped(Round(x)) <= Clamped(Round(y))
  {
  }

  lemma Quotient(speed: real, least: real)
    requires 0.0 < least <= speed
    ensures speed / least >= 1.0
    ensures speed == least ==> speed / least == 1.0
  {
  }

  lemma QuotientGrows(slow: real, fast: real, least: real)
    requires 0.0 < least && slow <= fast
    ensures slow / least <= fast / least
  {
  }

  /** The ratio of a working link: 1 to 10, 1 for a slowest link, how many times faster
      than that it is, up to ten times, rounded to the nearest with halves up. */
  lemma RatioFollowsSpeed(results: seq<TestResult>, k: nat)
    requires Measurable(results) && k < |results| && results[k].error == "" && results[k].downloadBps > 0.0
    ensures var ratio, times := Suggested(results, k), results[k].downloadBps / MinSpeed(results);
            && times >= 1.0 && 1 <= ratio <= 10
            && (results[k].downloadBps == MinSpeed(results) ==> ratio == 1)
            && (times <= 10.0 ==> -0.5 < ratio as real - times <= 0.5)
            && (times >= 10.0 ==> ratio == 10)
  {
    hide MinSpeed, Round, Clamped;
    MinSpeedIsSlowest(results, k);
    var j :| 0 <= j < |results| && results[j].Works() && results[j].downloadBps == MinSpeed(results);
    Quotient(results[k].downloadBps, MinSpeed(results));
    RoundIsNear(results[k].downloadBps / MinSpeed(results));
    OneStaysOne();
  }

  lemma OneStaysOne()
    ensures Clamped(Round(1.0)) == 1
  {
  }

  /** A link that did not work gets 1, and so does every link when none worked. */
  lemma IdleGetsOne(results: seq<TestResult>, k: nat)
    requires k < |results|
    requires || results[k].error != "" || results[k].downloadBps <= 0.0
             || forall j :: 0 <= j < |results| ==> results[j].error != "" || results[j].downloadBps <= 0.0
    ensures Suggested(results, k) == 1
  {
    hide MinSpeed;
  }

  /** A faster link never gets a smaller ratio. */
  lemma FasterIsNotSmaller(results: seq<TestResult>, i: nat, j: nat)
    requires i < |results| && j < |results|
    requires results[i].Works() && results[j].Works() && results[i].downloadBps <= results[j].downloadBps
    ensures Suggested(results, i) <= Suggested(results, j)
  {
    hide MinSpeed, Round, Clamped;
    QuotientGrows(results[i].downloadBps, results[j].downloadBps, MinSpeed(results));
    QuotientGrows(0.0, results[i].downloadBps, MinSpeed(results));
    Monotone(results[i].downloadBps / MinSpeed(results), results[j].downloadBps / MinSpeed(results));
  }
}
