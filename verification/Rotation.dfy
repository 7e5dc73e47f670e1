/**
The weighted rotation behind the dispatcher, with the cursor and the skipped links
abstracted away: a queue of slots whose head is served until it has had `ratio`
turns and then goes to the back. `Scheduling` shows that the dispatcher's cursor
scan is this queue; everything quantitative is proved here, once, about the queue.
*/
module Rotation {

  datatype Slot = Slot(index: nat, ratio: int, current: int)

  // No slot has used up its turn.
  ghost predicate InTurn(q: seq<Slot>) {
    forall k :: 0 <= k < |q| ==> 0 <= q[k].current < q[k].ratio
  }

  // No link occupies two slots.
  ghost predicate Distinct(q: seq<Slot>) {
    forall j, k :: 0 <= j < k < |q| ==> q[j].index != q[k].index
  }

  // Only the head may be part-way through its turn.
  ghost predicate Clean(q: seq<Slot>) {
    forall k :: 1 <= k < |q| ==> q[k].current == 0
  }

  ghost predicate Has(q: seq<Slot>, i: nat, r: int) {
    exists k :: 0 <= k < |q| && q[k].index == i && q[k].ratio == r
  }

  /** One pick: the head is served. */
  function Turn(q: seq<Slot>): seq<Slot>
    requires q != []
  {
    var h := q[0];
    if h.current + 1 >= h.ratio then q[1..] + [h.(current := 0)]
    else [h.(current := h.current + 1)] + q[1..]
  }

  function After(q: seq<Slot>, m: nat): (r: seq<Slot>)
    requires q != []
    ensures |r| == |q|
  {
    if m == 0 then q else Turn(After(q, m - 1))
  }

  /** The links served by the first m picks, in order. */
  function Served(q: seq<Slot>, m: nat): (r: seq<nat>)
    requires q != []
    ensures |r| == m
  {
    if m == 0 then [] else Served(q, m - 1) + [After(q, m - 1)[0].index]
  }

  function Weight(q: seq<Slot>): int {
    if q == [] then 0 else q[0].ratio + Weight(q[1..])
  }

  // Picks still owed before every slot has finished its current turn.
  function Debt(q: seq<Slot>): int {
    if q == [] then 0 else q[0].ratio - q[0].current + Debt(q[1..])
  }

  // Picks before the slot of link i reaches the head.
  function Wait(q: seq<Slot>, i: nat): int {
    if q == [] || q[0].index == i then 0
    else q[0].ratio - q[0].current + Wait(q[1..], i)
  }

  function Reset(q: seq<Slot>): (r: seq<Slot>)
    ensures |r| == |q|
    ensures forall k :: 0 <= k < |q| ==> r[k] == q[k].(current := 0)
  {
    seq(|q|, k requires 0 <= k < |q| => q[k].(current := 0))
  }

  function Repeat(i: nat, n: nat): (r: seq<nat>)
    ensures |r| == n && forall k :: 0 <= k < n ==> r[k] == i
  {
    if n == 0 then [] else Repeat(i, n - 1) + [i]
  }

  // How often link i occurs among the served.
  function Count(s: seq<nat>, i: nat): nat {
    multiset(s)[i]
  }

  lemma CountOverConcat(a: seq<nat>, b: seq<nat>, i: nat)
    ensures Count(a + b, i) == Count(a, i) + Count(b, i)
    ensures Count([], i) == 0
  {
  }

  lemma CountAbsent(a: seq<nat>, i: nat)
    requires i !in a
    ensures Count(a, i) == 0
  {
  }

  lemma CountOneMore(a: seq<nat>, j: nat, i: nat)
    ensures Count(a + [j], i) == Count(a, i) + (if i == j then 1 else 0)
  {
  }

  // The order of service over one lap: each link as often as it is still owed.
  function Lap(q: seq<Slot>): seq<nat> {
    if q == [] then []
    else Repeat(q[0].index, if q[0].ratio >= q[0].current then q[0].ratio - q[0].current else 0) + Lap(q[1..])
  }

  // ----- sums over concatenations

  lemma {:induction false} SumsOverConcat(a: seq<Slot>, b: seq<Slot>)
    ensures Weight(a + b) == Weight(a) + Weight(b)
    ensures Debt(a + b) == Debt(a) + Debt(b)
    ensures Lap(a + b) == Lap(a) + Lap(b)
  {
    if a == [] {
      assert a + b == b;
    } else {
      assert (a + b)[1..] == a[1..] + b;
      SumsOverConcat(a[1..], b);
    }
  }

  lemma {:induction false} SumsBounded(q: seq<Slot>)
    requires InTurn(q)
    ensures |q| <= Debt(q) <= Weight(q)
    ensures |Lap(q)| == Debt(q)
    ensures Weight(Reset(q)) == Weight(q) == Debt(Reset(q))
  {
    if q != [] {
      assert Reset(q)[1..] == Reset(q[1..]);
      SumsBounded(q[1..]);
    }
  }

  // ----- what a pick keeps

  lemma TurnKeeps(q: seq<Slot>)
    requires InTurn(q) && q != []
    ensures InTurn(Turn(q))
    ensures Clean(q) ==> Clean(Turn(q))
    ensures Weight(Turn(q)) == Weight(q)
  {
    var h, rest, t := q[0], q[1..], Turn(q);
    assert q == [h] + rest;
    SumsOverConcat([h], rest);
    if h.current + 1 >= h.ratio {
      SumsOverConcat(rest, [h.(current := 0)]);
      assert forall k :: 0 <= k < |t| ==> t[k] == if k + 1 < |q| then q[k + 1] else h.(current := 0);
    } else {
      SumsOverConcat([h.(current := h.current + 1)], rest);
      assert forall k :: 1 <= k < |t| ==> t[k] == q[k];
    }
  }

  lemma TurnKeepsDistinct(q: seq<Slot>)
    requires q != [] && Distinct(q)
    ensures Distinct(Turn(q))
  {
    var t := Turn(q);
    if q[0].current + 1 >= q[0].ratio {
      assert forall k :: 0 <= k < |t| - 1 ==> t[k] == q[k + 1];
    } else {
      assert forall k :: 0 <= k < |t| ==> t[k].index == q[k].index;
    }
  }

  lemma TurnKeepsLink(q: seq<Slot>, i: nat, r: int)
    requires q != [] && Has(q, i, r)
    ensures Has(Turn(q), i, r)
  {
    var k :| 0 <= k < |q| && q[k].index == i && q[k].ratio == r;
    var k' := if q[0].current + 1 < q[0].ratio then k else if k == 0 then |q| - 1 else k - 1;
    assert Turn(q)[k'].index == i && Turn(q)[k'].ratio == r;
  }

  lemma {:induction false} AfterKeeps(q: seq<Slot>, m: nat)
    requires InTurn(q) && q != []
    ensures InTurn(After(q, m))
    ensures Clean(q) ==> Clean(After(q, m))
    ensures Weight(After(q, m)) == Weight(q)
  {
    if m > 0 {
      AfterKeeps(q, m - 1);
      TurnKeeps(After(q, m - 1));
    }
  }

  lemma {:induction false} AfterKeepsLink(q: seq<Slot>, m: nat, i: nat, r: int)
    requires q != [] && Distinct(q) && Has(q, i, r)
    ensures Distinct(After(q, m)) && Has(After(q, m), i, r)
  {
    if m > 0 {
      AfterKeepsLink(q, m - 1, i, r);
      TurnKeepsDistinct(After(q, m - 1));
      TurnKeepsLink(After(q, m - 1), i, r);
    }
  }

  lemma OneMore(q: seq<Slot>, m: nat)
    requires q != []
    ensures After(q, m + 1) == Turn(After(q, m))
    ensures Served(q, m + 1) == Served(q, m) + [After(q, m)[0].index]
    ensures After(q, 0) == q && Served(q, 0) == []
  {
  }

  lemma {:induction false} Compose(q: seq<Slot>, a: nat, b: nat)
    requires q != []
    ensures After(q, a + b) == After(After(q, a), b)
    ensures Served(q, a + b) == Served(q, a) + Served(After(q, a), b)
  {
    hide After, Served, Turn;
    var p := After(q, a);
    OneMore(p, 0);
    if b > 0 {
      Compose(q, a, b - 1);
      OneMore(q, a + b - 1);
      OneMore(p, b - 1);
    }
  }

  // ----- laps: settling, periodicity, bounded wait

  // Within its turn the head is served again and again.
  lemma {:induction false} WithinTurn(q: seq<Slot>, k: nat)
    requires InTurn(q) && q != [] && q[0].current + k < q[0].ratio
    ensures After(q, k) == [q[0].(current := q[0].current + k)] + q[1..]
    ensures Served(q, k) == Repeat(q[0].index, k)
  {
    if k > 0 {
      WithinTurn(q, k - 1);
    } else {
      assert q == [q[0]] + q[1..];
    }
  }

  lemma WholeTurn(q: seq<Slot>)
    requires InTurn(q) && q != []
    ensures q[0].ratio > q[0].current
    ensures After(q, q[0].ratio - q[0].current) == q[1..] + [q[0].(current := 0)]
    ensures Served(q, q[0].ratio - q[0].current) == Repeat(q[0].index, q[0].ratio - q[0].current)
  {
    hide After, Served;
    var h, k := q[0], q[0].ratio - q[0].current;
    WithinTurn(q, k - 1);
    OneMore(q, k - 1);
    assert After(q, k - 1)[1..] == q[1..];
  }

  // The first k slots finish their turns one after the other and queue up, reset,
  // behind the rest.
  lemma {:induction false} PartialLap(q: seq<Slot>, k: nat)
    requires InTurn(q) && q != [] && k <= |q|
    ensures 0 <= Debt(q[..k])
    ensures After(q, Debt(q[..k])) == q[k..] + Reset(q[..k])
    ensures Served(q, Debt(q[..k])) == Lap(q[..k])
  {
    hide *;
    if k == 0 {
      LapStarts(q);
    } else {
      PartialLap(q, k - 1);
      var done := Debt(q[..k - 1]);
      LapStep(q, k - 1);
      AfterKeeps(q, done);
      var p := After(q, done);
      WholeTurn(p);
      Compose(q, done, p[0].ratio - p[0].current);
    }
  }

  lemma LapStarts(q: seq<Slot>)
    requires q != []
    ensures q[..0] == [] && Debt([]) == 0 && Lap([]) == [] && q[0..] + Reset([]) == q
    ensures After(q, 0) == q && Served(q, 0) == []
  {
  }

  lemma LapStep(q: seq<Slot>, k: nat)
    requires InTurn(q) && k < |q|
    ensures q[k].current < q[k].ratio
    ensures var p, h := q[k..] + Reset(q[..k]), q[k];
            && p[0] == h
            && p[1..] + [h.(current := 0)] == q[k + 1..] + Reset(q[..k + 1])
            && Debt(q[..k + 1]) == Debt(q[..k]) + h.ratio - h.current
            && Lap(q[..k + 1]) == Lap(q[..k]) + Repeat(h.index, h.ratio - h.current)
  {
    assert q[..k + 1] == q[..k] + [q[k]];
    SumsOverConcat(q[..k], [q[k]]);
    assert Lap([q[k]]) == Repeat(q[k].index, q[k].ratio - q[k].current) + Lap([]);
    var p, h := q[k..] + Reset(q[..k]), q[k];
    assert p[1..] == q[k + 1..] + Reset(q[..k]);
    assert Reset(q[..k]) + [h.(current := 0)] == Reset(q[..k + 1]);
  }

  /** Settling: whatever turns were left half-used, after exactly Debt(q) picks every
      slot has been served what it was owed, in queue order, all counters are zero and
      the order of the queue is back where it started. */
  lemma Settles(q: seq<Slot>)
    requires InTurn(q) && q != []
    ensures 0 <= Debt(q)
    ensures After(q, Debt(q)) == Reset(q)
    ensures Served(q, Debt(q)) == Lap(q)
  {
    PartialLap(q, |q|);
    assert q[..|q|] == q && q[|q|..] + Reset(q) == Reset(q);
  }

  lemma {:induction false} LapCounts(q: seq<Slot>, k: nat)
    requires InTurn(q) && Distinct(q) && k < |q|
    ensures Count(Lap(q), q[k].index) == q[k].ratio - q[k].current
  {
    hide Repeat, Count;
    var n, rest := q[0].ratio - q[0].current, q[1..];
    RepeatCounts(q[0].index, n, q[k].index);
    CountOverConcat(Repeat(q[0].index, n), Lap(rest), q[k].index);
    if k > 0 {
      assert rest[k - 1] == q[k];
      LapCounts(rest, k - 1);
    } else {
      assert forall j :: 0 <= j < |rest| ==> rest[j].index == q[j + 1].index;
      LapOnlyServesQueue(rest, q[0].index);
      CountAbsent(Lap(rest), q[0].index);
    }
  }

  lemma {:induction false} LapOnlyServesQueue(q: seq<Slot>, i: nat)
    requires forall k :: 0 <= k < |q| ==> q[k].index != i
    ensures i !in Lap(q)
  {
    if q != [] {
      LapOnlyServesQueue(q[1..], i);
    }
  }

  lemma {:induction false} RepeatCounts(i: nat, n: nat, j: nat)
    ensures Count(Repeat(i, n), j) == if i == j then n else 0
  {
    if n > 0 {
      RepeatCounts(i, n - 1, j);
      CountOneMore(Repeat(i, n - 1), i, j);
    }
  }

  lemma CleanLap(q: seq<Slot>)
    requires InTurn(q) && q != [] && Clean(q)
    ensures 0 <= Weight(q) && q[0].current <= Weight(q)
    ensures After(q, Weight(q)) == q
    ensures Served(q, Weight(q)) == Lap(q) + Repeat(q[0].index, q[0].current)
  {
    hide After, Served, Debt, Weight, Lap, Repeat;
    var c, z := q[0].current, Reset(q);
    CleanDebt(q);
    Settles(q);
    WithinTurn(z, c);
    Compose(q, Debt(q), c);
    assert [z[0].(current := c)] + z[1..] == q;
  }

  /** Periodicity: from a state in which only the head may be part-way through its turn,
      every Weight(q) consecutive picks serve each link exactly its ratio and bring the
      whole queue, counters included, back to where it was. */
  lemma Periodic(q: seq<Slot>, k: nat)
    requires InTurn(q) && Distinct(q) && Clean(q) && k < |q|
    ensures 0 <= Weight(q)
    ensures After(q, Weight(q)) == q
    ensures Count(Served(q, Weight(q)), q[k].index) == q[k].ratio
  {
    CleanLap(q);
    LapCounts(q, k);
    RepeatCounts(q[0].index, q[0].current, q[k].index);
    CountOverConcat(Lap(q), Repeat(q[0].index, q[0].current), q[k].index);
  }

  lemma CleanDebt(q: seq<Slot>)
    requires InTurn(q) && q != [] && Clean(q)
    ensures 0 <= Debt(q) == Weight(q) - q[0].current
  {
    var rest := q[1..];
    assert InTurn(rest);
    SumsBounded(q);
    SumsBounded(rest);
    assert Reset(rest) == rest;
  }

  /** Bounded wait, exactly: link i is not served during the first Wait(q, i) picks
      and is served by the very next one. */
  lemma WaitIsExact(q: seq<Slot>, k: nat)
    requires InTurn(q) && Distinct(q) && k < |q|
    ensures 0 <= Wait(q, q[k].index) <= Debt(q) - (q[k].ratio - q[k].current)
    ensures q[k].index !in Served(q, Wait(q, q[k].index))
    ensures After(q, Wait(q, q[k].index))[0].index == q[k].index
  {
    WaitIsPrefixDebt(q, k);
    PartialLap(q, k);
    LapOnlyServesQueue(q[..k], q[k].index);
    assert q == q[..k] + q[k..];
    SumsOverConcat(q[..k], q[k..]);
    SumsBounded(q[k + 1..]);
    assert q[k..][1..] == q[k + 1..];
  }

  lemma ServedOnceWaited(q: seq<Slot>, k: nat, m: nat)
    requires InTurn(q) && Distinct(q) && k < |q| && m > Wait(q, q[k].index)
    ensures q[k].index in Served(q, m)
  {
    hide *;
    WaitIsExact(q, k);
    var w := Wait(q, q[k].index);
    OneMore(q, w);
    Compose(q, w + 1, m - (w + 1));
    assert q[k].index == Served(q, w + 1)[|Served(q, w + 1)| - 1];
  }

  lemma {:induction false} WaitIsPrefixDebt(q: seq<Slot>, k: nat)
    requires InTurn(q) && Distinct(q) && k < |q|
    ensures Wait(q, q[k].index) == Debt(q[..k])
  {
    if k > 0 {
      WaitIsPrefixDebt(q[1..], k - 1);
      assert q[..k][1..] == q[1..][..k - 1];
    }
  }

  // ----- fairness over windows of any length

  // How far link i is ahead of its fair share, scaled by the total weight: it climbs by
  // Weight - r when i is served and falls by r when another link is.
  function Lead(q: seq<Slot>, i: nat, r: int): int
    requires q != []
  {
    if q[0].index == i then q[0].current * (Weight(q) - r) else r * Wait(q, i)
  }

  lemma {:induction false} WaitOverConcat(a: seq<Slot>, b: seq<Slot>, i: nat)
    ensures Wait(a + b, i) ==
            if exists k :: 0 <= k < |a| && a[k].index == i then Wait(a, i) else Debt(a) + Wait(b, i)
  {
    if a == [] {
      assert a + b == b;
    } else {
      assert (a + b)[1..] == a[1..] + b;
      WaitOverConcat(a[1..], b, i);
      if exists k :: 0 <= k < |a| && a[k].index == i {
        var k :| 0 <= k < |a| && a[k].index == i;
        assert k > 0 ==> a[1..][k - 1].index == i;
      } else {
        assert forall k :: 0 <= k < |a[1..]| ==> a[1..][k] == a[k + 1];
      }
    }
  }

  lemma LeadSteps(q: seq<Slot>, i: nat, r: int)
    requires InTurn(q) && Distinct(q) && Clean(q) && q != [] && Has(q, i, r)
    ensures Lead(Turn(q), i, r) - Lead(q, i, r) == (if q[0].index == i then Weight(q) else 0) - r
  {
    if q[0].current + 1 < q[0].ratio {
      LeadWithinTurn(q, i, r);
    } else if q[0].index == i {
      LeadEndsOwnTurn(q, i, r);
    } else {
      LeadEndsOtherTurn(q, i, r);
    }
  }

  lemma LeadWithinTurn(q: seq<Slot>, i: nat, r: int)
    requires InTurn(q) && q != [] && q[0].current + 1 < q[0].ratio
    ensures Lead(Turn(q), i, r) - Lead(q, i, r) == (if q[0].index == i then Weight(q) else 0) - r
  {
    TurnKeeps(q);
    assert Turn(q)[1..] == q[1..];
    LeadClimbs(q[0].current, Weight(q), r);
    LeadFalls(r, Wait(Turn(q), i));
  }

  lemma LeadEndsOwnTurn(q: seq<Slot>, i: nat, r: int)
    requires InTurn(q) && Distinct(q) && Clean(q) && q != [] && q[0].current + 1 == q[0].ratio
    requires q[0].index == i && q[0].ratio == r
    ensures Lead(Turn(q), i, r) - Lead(q, i, r) == Weight(q) - r
  {
    var h, rest := q[0], q[1..];
    var t := rest + [h.(current := 0)];
    TurnKeeps(q);
    CleanDebt(q);
    WaitOverConcat(rest, [h.(current := 0)], i);
    LeadClimbs(r - 1, Weight(q), r);
    assert Wait([h.(current := 0)], i) == 0;
    forall k | 0 <= k < |rest| ensures rest[k].index != i {
      assert rest[k] == q[k + 1];
    }
    assert Wait(t, i) == Debt(rest) == Weight(q) - r;
    if rest != [] {
      assert t[0] == rest[0] == q[1];
    }
  }

  lemma LeadEndsOtherTurn(q: seq<Slot>, i: nat, r: int)
    requires InTurn(q) && Distinct(q) && Clean(q) && q != [] && q[0].current + 1 == q[0].ratio
    requires q[0].index != i && Has(q, i, r)
    ensures Lead(Turn(q), i, r) - Lead(q, i, r) == -r
  {
    var h, rest := q[0], q[1..];
    var k :| 0 <= k < |q| && q[k].index == i && q[k].ratio == r;
    assert rest[k - 1] == q[k];
    var t := rest + [h.(current := 0)];
    WaitOverConcat(rest, [h.(current := 0)], i);
    assert Wait(t, i) == Wait(q, i) - 1;
    assert t[0] == q[1];
    LeadFalls(r, Wait(t, i));
  }

  lemma LeadClimbs(c: int, w: int, r: int)
    ensures (c + 1) * (w - r) == c * (w - r) + w - r
    ensures r * (w - r) == (w - r) * r
  {
  }

  lemma LeadFalls(r: int, w: int)
    ensures r * (w + 1) == r * w + r
  {
  }

  lemma LeadBounded(q: seq<Slot>, i: nat, r: int)
    requires InTurn(q) && Distinct(q) && Clean(q) && q != [] && Has(q, i, r)
    ensures 0 <= Lead(q, i, r) <= r * (Weight(q) - r)
  {
    var k :| 0 <= k < |q| && q[k].index == i && q[k].ratio == r;
    CleanDebt(q);
    WaitIsExact(q, k);
    if k == 0 {
      SumsBounded(q[1..]);
      Monotone(q[0].current, r, Weight(q) - r);
    } else {
      Monotone(Wait(q, i), Weight(q) - r, r);
    }
  }

  lemma Monotone(a: int, b: int, f: int)
    requires 0 <= a <= b && 0 <= f
    ensures 0 <= a * f <= b * f
    ensures a * f == f * a && b * f == f * b
  {
  }

  lemma {:induction false} LeadAccounts(q: seq<Slot>, m: nat, i: nat, r: int)
    requires InTurn(q) && Distinct(q) && Clean(q) && q != [] && Has(q, i, r)
    ensures Lead(After(q, m), i, r) - Lead(q, i, r) == Weight(q) * Count(Served(q, m), i) - m * r
  {
    hide *;
    OneMore(q, 0);
    CountOverConcat([], [], i);
    if m > 0 {
      LeadAccounts(q, m - 1, i, r);
      AfterKeeps(q, m - 1);
      AfterKeepsLink(q, m - 1, i, r);
      var p, n := After(q, m - 1), Count(Served(q, m - 1), i);
      LeadSteps(p, i, r);
      OneMore(q, m - 1);
      CountOneMore(Served(q, m - 1), p[0].index, i);
      LeadFalls(Weight(q), n);
      LeadFalls(r, m - 1);
    }
  }

  /** Exact fairness: over any m consecutive picks, link i's count differs from its fair
      share m * r / Weight by at most r * (Weight - r) / Weight. */
  lemma Fair(q: seq<Slot>, m: nat, i: nat, r: int)
    requires InTurn(q) && Distinct(q) && Clean(q) && q != [] && Has(q, i, r)
    ensures var gap := Weight(q) * Count(Served(q, m), i) - m * r;
            -(r * (Weight(q) - r)) <= gap <= r * (Weight(q) - r)
  {
    LeadAccounts(q, m, i, r);
    AfterKeeps(q, m);
    AfterKeepsLink(q, m, i, r);
    LeadBounded(q, i, r);
    LeadBounded(After(q, m), i, r);
  }
}
