/**
Which link a request gets (dispatcher/dispatcher.go:154-268), on values: the list of
links, the cursor, and what one pick does to both. The class `Dispatcher` runs the
original's loops against these functions; here they are related to the pointwise
specification of a pick and to the rotating queue of `Rotation`.
*/
module Scheduling {
  import opened Links
  import opened Rotation

  // ----- cyclic positions

  function Next(c: nat, n: nat): nat {
    if c + 1 >= n then 0 else c + 1
  }

  // The position d steps after c in a list of n.
  function At(c: nat, d: nat, n: nat): nat
    requires c < n && d <= n
  {
    if c + d < n then c + d else c + d - n
  }

  // How many steps from c to i.
  function Distance(c: nat, i: nat, n: nat): nat
    requires c < n && i < n
  {
    if c <= i then i - c else i + n - c
  }

  // The least offset from d on at which a wanted position is found, or the length.
  function FirstFrom(wanted: seq<bool>, c: nat, d: nat): (e: nat)
    requires d <= |wanted| && (c < |wanted| || d == |wanted|)
    ensures d <= e <= |wanted|
    ensures e < |wanted| ==> wanted[At(c, e, |wanted|)]
    ensures forall k :: d <= k < e ==> !wanted[At(c, k, |wanted|)]
    decreases |wanted| - d
  {
    if d == |wanted| || wanted[At(c, d, |wanted|)] then d else FirstFrom(wanted, c, d + 1)
  }

  // The scan's result from the cursor; an empty list has nothing to find.
  function Find(wanted: seq<bool>, c: nat): (e: nat)
    requires c < |wanted| || wanted == []
    ensures e <= |wanted|
  {
    FirstFrom(wanted, c, 0)
  }

  // One more position looked at, and found wanting or not.
  lemma LookAt(wanted: seq<bool>, c: nat, d: nat)
    requires c < |wanted| && d < |wanted| && Find(wanted, c) == FirstFrom(wanted, c, d)
    ensures At(c, d, |wanted|) < |wanted|
    ensures if wanted[At(c, d, |wanted|)] then Find(wanted, c) == d
            else Find(wanted, c) == FirstFrom(wanted, c, d + 1) > d
    ensures At(c, d + 1, |wanted|) == Next(At(c, d, |wanted|), |wanted|) < |wanted|
  {
    hide Find;
  }

  lemma ScanEnds(wanted: seq<bool>, c: nat)
    requires c < |wanted| || wanted == []
    ensures FirstFrom(wanted, c, |wanted|) == |wanted| && Find(wanted, c) == FirstFrom(wanted, c, 0)
    ensures wanted != [] ==> At(c, 0, |wanted|) == At(c, |wanted|, |wanted|) == c
  {
  }

  // ----- who may carry a request

  function Usable(links: seq<Link>, hasV4: bool, hasV6: bool): (r: seq<bool>)
    ensures |r| == |links|
    ensures forall k :: 0 <= k < |links| ==> r[k] == links[k].UsableFor(hasV4, hasV6)
  {
    seq(|links|, k requires 0 <= k < |links| => links[k].UsableFor(hasV4, hasV6))
  }

  function Eligible(links: seq<Link>, hasV4: bool, hasV6: bool): (r: seq<bool>)
    ensures |r| == |links|
    ensures forall k :: 0 <= k < |links| ==>
              r[k] == (links[k].UsableFor(hasV4, hasV6) && !links[k].excluded)
  {
    seq(|links|, k requires 0 <= k < |links| => links[k].UsableFor(hasV4, hasV6) && !links[k].excluded)
  }

  ghost predicate CursorOk(c: nat, n: nat) {
    c < n || (n == 0 && c == 0)
  }

  // ----- a pick by address family

  datatype Choice = InRotation(index: nat) | Fallback(index: nat) | NoCompatible

  function Choose(links: seq<Link>, c: nat, hasV4: bool, hasV6: bool): Choice
    requires CursorOk(c, |links|)
  {
    var n := |links|;
    var e, u := Find(Eligible(links, hasV4, hasV6), c), Find(Usable(links, hasV4, hasV6), c);
    if e < n then InRotation(At(c, e, n))
    else if u < n then Fallback(At(c, u, n))
    else NoCompatible
  }

  // The cursor stays on a link until its turn is over.
  function TurnCursor(l: Link, i: nat, n: nat): nat {
    if l.current + 1 >= l.ratio then Next(i, n) else i
  }

  // The links and the cursor after a turn of link i in rotation.
  function AfterTurn(links: seq<Link>, i: nat): (seq<Link>, nat)
    requires i < |links|
  {
    (links[i := Counted(links[i])], TurnCursor(links[i], i, |links|))
  }

  // A fallback pick counts no turn and always moves the cursor past the link.
  function AfterChoice(links: seq<Link>, c: nat, choice: Choice): (seq<Link>, nat)
    requires choice.InRotation? || choice.Fallback? ==> choice.index < |links|
  {
    match choice
    case InRotation(i) => AfterTurn(links, i)
    case Fallback(i) => (links, Next(i, |links|))
    case NoCompatible => (links, c)
  }

  lemma ChoiceInRange(links: seq<Link>, c: nat, hasV4: bool, hasV6: bool)
    requires CursorOk(c, |links|)
    ensures var choice := Choose(links, c, hasV4, hasV6);
            choice.InRotation? || choice.Fallback? ==> choice.index < |links|
  {
  }

  /** The choice, stated position by position: the nearest eligible link in cyclic order
      from the cursor; an excluded link only when every usable link is excluded, and then
      the nearest usable one; an error exactly when no link has a matching family. */
  lemma ChoiceIsNearest(links: seq<Link>, c: nat, hasV4: bool, hasV6: bool)
    requires CursorOk(c, |links|)
    ensures var n, choice := |links|, Choose(links, c, hasV4, hasV6);
            var usable, eligible := Usable(links, hasV4, hasV6), Eligible(links, hasV4, hasV6);
            && (choice.InRotation? <==> exists k :: 0 <= k < n && eligible[k])
            && (choice.NoCompatible? <==> forall k :: 0 <= k < n ==> !usable[k])
            && (choice.InRotation? ==> choice.index < n && eligible[choice.index])
            && (choice.Fallback? ==> choice.index < n && usable[choice.index] && links[choice.index].excluded)
            && (choice.InRotation? ==> forall k :: 0 <= k < n && eligible[k] ==>
                  Distance(c, choice.index, n) <= Distance(c, k, n))
            && (choice.Fallback? ==> forall k :: 0 <= k < n && usable[k] ==>
                  links[k].excluded && Distance(c, choice.index, n) <= Distance(c, k, n))
  {
    FindIsNearest(Usable(links, hasV4, hasV6), c);
    FindIsNearest(Eligible(links, hasV4, hasV6), c);
  }

  lemma FindIsNearest(wanted: seq<bool>, c: nat)
    requires CursorOk(c, |wanted|)
    ensures var n, e := |wanted|, Find(wanted, c);
            && (e < n <==> exists k :: 0 <= k < n && wanted[k])
            && (e < n ==> At(c, e, n) < n && wanted[At(c, e, n)] && Distance(c, At(c, e, n), n) == e)
            && forall k :: 0 <= k < n && wanted[k] ==> e <= Distance(c, k, n)
  {
    forall k | 0 <= k < |wanted| && wanted[k] ensures Find(wanted, c) <= Distance(c, k, |wanted|) {
      assert At(c, Distance(c, k, |wanted|), |wanted|) == k;
    }
  }

  // ----- the queue behind the cursor

  function Span(links: seq<Link>, wanted: seq<bool>, lo: nat, hi: nat): seq<Slot>
    requires |wanted| == |links| && lo <= hi <= |links|
    decreases hi - lo
  {
    if lo == hi then []
    else if wanted[lo] then [Slot(lo, links[lo].ratio, links[lo].current)] + Span(links, wanted, lo + 1, hi)
    else Span(links, wanted, lo + 1, hi)
  }

  /** The wanted links as a queue, in the order the cursor will come to them. */
  function Queue(links: seq<Link>, wanted: seq<bool>, c: nat): seq<Slot>
    requires |wanted| == |links| && CursorOk(c, |links|)
  {
    Span(links, wanted, c, |links|) + Span(links, wanted, 0, c)
  }

  lemma {:induction false} SpanSplits(links: seq<Link>, wanted: seq<bool>, lo: nat, mid: nat, hi: nat)
    requires |wanted| == |links| && lo <= mid <= hi <= |links|
    ensures Span(links, wanted, lo, hi) == Span(links, wanted, lo, mid) + Span(links, wanted, mid, hi)
    decreases hi - lo
  {
    if lo < mid {
      SpanSplits(links, wanted, lo + 1, mid, hi);
    }
  }

  // A span depends only on the links inside it.
  lemma {:induction false} SpanFrame(links: seq<Link>, links': seq<Link>, wanted: seq<bool>, lo: nat, hi: nat)
    requires |wanted| == |links| == |links'| && lo <= hi <= |links|
    requires forall k :: lo <= k < hi ==> links[k].ratio == links'[k].ratio && links[k].current == links'[k].current
    ensures Span(links, wanted, lo, hi) == Span(links', wanted, lo, hi)
    decreases hi - lo
  {
    if lo < hi {
      SpanFrame(links, links', wanted, lo + 1, hi);
    }
  }

  // A slot that faithfully stands for a wanted link.
  ghost predicate StandsFor(s: Slot, links: seq<Link>, wanted: seq<bool>)
    requires |wanted| == |links|
  {
    && s.index < |links| && wanted[s.index]
    && s.ratio == links[s.index].ratio && s.current == links[s.index].current
  }

  // Faithful slots of wanted links between lo and hi, in order.
  ghost predicate Lists(q: seq<Slot>, links: seq<Link>, wanted: seq<bool>, lo: nat, hi: nat)
    requires |wanted| == |links|
  {
    && (forall k :: 0 <= k < |q| ==> lo <= q[k].index < hi && StandsFor(q[k], links, wanted))
    && (forall j, k :: 0 <= j < k < |q| ==> q[j].index < q[k].index)
  }

  lemma {:induction false} SpanContents(links: seq<Link>, wanted: seq<bool>, lo: nat, hi: nat)
    requires |wanted| == |links| && lo <= hi <= |links|
    ensures Lists(Span(links, wanted, lo, hi), links, wanted, lo, hi)
    decreases hi - lo
  {
    if lo < hi {
      SpanContents(links, wanted, lo + 1, hi);
      var q, rest := Span(links, wanted, lo, hi), Span(links, wanted, lo + 1, hi);
      if wanted[lo] {
        assert q[0].index == lo && forall k :: 1 <= k < |q| ==> q[k] == rest[k - 1];
      }
    }
  }

  lemma {:induction false} SpanComplete(links: seq<Link>, wanted: seq<bool>, lo: nat, hi: nat, i: nat)
    requires |wanted| == |links| && lo <= i < hi <= |links| && wanted[i]
    ensures Has(Span(links, wanted, lo, hi), i, links[i].ratio)
    decreases hi - lo
  {
    var q := Span(links, wanted, lo, hi);
    if lo == i {
      assert q[0].index == i && q[0].ratio == links[i].ratio;
    } else {
      SpanComplete(links, wanted, lo + 1, hi, i);
      var rest := Span(links, wanted, lo + 1, hi);
      var k :| 0 <= k < |rest| && rest[k].index == i && rest[k].ratio == links[i].ratio;
      assert q[if wanted[lo] then k + 1 else k] == rest[k];
    }
  }

  lemma {:induction false} SpanEmpty(links: seq<Link>, wanted: seq<bool>, lo: nat, hi: nat)
    requires |wanted| == |links| && lo <= hi <= |links|
    requires forall k :: lo <= k < hi ==> !wanted[k]
    ensures Span(links, wanted, lo, hi) == []
    decreases hi - lo
  {
    if lo < hi {
      SpanEmpty(links, wanted, lo + 1, hi);
    }
  }

  /** The queue holds every wanted link exactly once, with that link's ratio and counter. */
  lemma QueueContents(links: seq<Link>, wanted: seq<bool>, c: nat)
    requires |wanted| == |links| && CursorOk(c, |links|)
    ensures Distinct(Queue(links, wanted, c))
    ensures forall s :: s in Queue(links, wanted, c) ==> StandsFor(s, links, wanted)
  {
    SpanContents(links, wanted, c, |links|);
    SpanContents(links, wanted, 0, c);
    var a, b := Span(links, wanted, c, |links|), Span(links, wanted, 0, c);
    assert Lists(a, links, wanted, c, |links|) && Lists(b, links, wanted, 0, c);
  }

  lemma QueueComplete(links: seq<Link>, wanted: seq<bool>, c: nat, i: nat)
    requires |wanted| == |links| && CursorOk(c, |links|) && i < |links| && wanted[i]
    ensures Has(Queue(links, wanted, c), i, links[i].ratio)
    ensures Queue(links, wanted, c) != []
  {
    var a, b := Span(links, wanted, c, |links|), Span(links, wanted, 0, c);
    var r := links[i].ratio;
    if c <= i {
      SpanComplete(links, wanted, c, |links|, i);
      var k :| 0 <= k < |a| && a[k].index == i && a[k].ratio == r;
      assert (a + b)[k] == a[k];
    } else {
      SpanComplete(links, wanted, 0, c, i);
      var k :| 0 <= k < |b| && b[k].index == i && b[k].ratio == r;
      assert (a + b)[|a| + k] == b[k];
    }
  }

  // Moving the cursor past a link: unwanted ones were never in the queue, a wanted one
  // goes from the front to the back.
  lemma CursorAdvances(links: seq<Link>, wanted: seq<bool>, c: nat)
    requires |wanted| == |links| && c < |links|
    ensures var q, q' := Queue(links, wanted, c), Queue(links, wanted, Next(c, |links|));
            if wanted[c]
            then q != [] && q[0] == Slot(c, links[c].ratio, links[c].current) && q' == q[1..] + [q[0]]
            else q' == q
  {
    var n := |links|;
    SpanSplits(links, wanted, 0, c, c + 1);
    assert Span(links, wanted, c + 1, c + 1) == [];
    if c + 1 == n {
      assert Span(links, wanted, n, n) == [];
      assert Queue(links, wanted, 0) == Span(links, wanted, 0, n);
    }
  }

  lemma {:induction false} SkippedAreNotQueued(links: seq<Link>, wanted: seq<bool>, c: nat, e: nat)
    requires |wanted| == |links| && c < |links| && e <= |links|
    requires forall k :: 0 <= k < e ==> !wanted[At(c, k, |links|)]
    ensures e < |links| ==> Queue(links, wanted, At(c, e, |links|)) == Queue(links, wanted, c)
  {
    if 0 < e < |links| {
      SkippedAreNotQueued(links, wanted, c, e - 1);
      CursorAdvances(links, wanted, At(c, e - 1, |links|));
    }
  }

  /** The scan finds the head of the queue. */
  lemma FindIsHead(links: seq<Link>, wanted: seq<bool>, c: nat)
    requires |wanted| == |links| && CursorOk(c, |links|)
    ensures var q, e := Queue(links, wanted, c), Find(wanted, c);
            && (e < |links| <==> q != [])
            && (e < |links| ==> var i := At(c, e, |links|);
                 && wanted[i] && q[0] == Slot(i, links[i].ratio, links[i].current)
                 && Queue(links, wanted, i) == q)
  {
    var e := Find(wanted, c);
    if e < |links| {
      SkippedAreNotQueued(links, wanted, c, e);
      CursorAdvances(links, wanted, At(c, e, |links|));
    } else {
      FindIsNearest(wanted, c);
      SpanEmpty(links, wanted, c, |links|);
      SpanEmpty(links, wanted, 0, c);
    }
  }

  // Counting a connection on the link under the cursor changes only the head.
  lemma HeadCounts(links: seq<Link>, wanted: seq<bool>, i: nat, l: Link)
    requires |wanted| == |links| && i < |links| && wanted[i] && l.ratio == links[i].ratio
    ensures var q := Queue(links, wanted, i);
            q != [] && Queue(links[i := l], wanted, i) == [q[0].(current := l.current)] + q[1..]
  {
    SpanFrame(links, links[i := l], wanted, i + 1, |links|);
    SpanFrame(links, links[i := l], wanted, 0, i);
  }

  /** Refinement: a pick in rotation is one turn of the queue, and serves its head. */
  lemma PickIsTurn(links: seq<Link>, c: nat, hasV4: bool, hasV6: bool)
    requires CursorOk(c, |links|)
    requires Choose(links, c, hasV4, hasV6).InRotation?
    ensures var i := Choose(links, c, hasV4, hasV6).index;
            var (links', c') := AfterTurn(links, i);
            var wanted := Eligible(links, hasV4, hasV6);
            var q := Queue(links, wanted, c);
            && CursorOk(c', |links|)
            && Eligible(links', hasV4, hasV6) == wanted
            && q != [] && q[0].index == i
            && Queue(links', wanted, c') == Turn(q)
  {
    var wanted := Eligible(links, hasV4, hasV6);
    FindIsHead(links, wanted, c);
    var i := Choose(links, c, hasV4, hasV6).index;
    TurnTurnsQueue(links, wanted, c, i);
  }

  lemma TurnTurnsQueue(links: seq<Link>, wanted: seq<bool>, c: nat, i: nat)
    requires |wanted| == |links| && CursorOk(c, |links|) && i < |links| && wanted[i]
    requires Queue(links, wanted, c) == Queue(links, wanted, i)
    ensures var (links', c') := AfterTurn(links, i);
            var q := Queue(links, wanted, c);
            && CursorOk(c', |links|)
            && q != [] && q[0].index == i
            && Queue(links', wanted, c') == Turn(q)
  {
    var q := Queue(links, wanted, i);
    CursorAdvances(links, wanted, i);
    HeadCounts(links, wanted, i, Counted(links[i]));
    if links[i].current + 1 >= links[i].ratio {
      var q' := Queue(links[i := Counted(links[i])], wanted, i);
      CursorAdvances(links[i := Counted(links[i])], wanted, i);
      assert q'[1..] == q[1..] && q'[0] == q[0].(current := 0);
    }
  }

  // ----- fallback picks, while every usable link is excluded

  function FallbackPicks(links: seq<Link>, c: nat, hasV4: bool, hasV6: bool, m: nat): seq<nat>
    requires CursorOk(c, |links|)
    decreases m
  {
    if m == 0 then []
    else match Choose(links, c, hasV4, hasV6)
         case Fallback(i) => [i] + FallbackPicks(links, Next(i, |links|), hasV4, hasV6, m - 1)
         case _ => []
  }

  function Indices(q: seq<Slot>): (r: seq<nat>)
    ensures |r| == |q| && forall k :: 0 <= k < |q| ==> r[k] == q[k].index
  {
    seq(|q|, k requires 0 <= k < |q| => q[k].index)
  }

  lemma FallbackRotates(links: seq<Link>, c: nat, hasV4: bool, hasV6: bool)
    requires CursorOk(c, |links|)
    requires Choose(links, c, hasV4, hasV6).Fallback?
    ensures var q, i := Queue(links, Usable(links, hasV4, hasV6), c), Choose(links, c, hasV4, hasV6).index;
            && CursorOk(Next(i, |links|), |links|)
            && q != [] && q[0].index == i
            && Queue(links, Usable(links, hasV4, hasV6), Next(i, |links|)) == q[1..] + [q[0]]
            && Choose(links, Next(i, |links|), hasV4, hasV6).Fallback?
  {
    var usable, i := Usable(links, hasV4, hasV6), Choose(links, c, hasV4, hasV6).index;
    FindIsHead(links, usable, c);
    CursorAdvances(links, usable, i);
    ChoiceIsNearest(links, c, hasV4, hasV6);
    ChoiceIsNearest(links, Next(i, |links|), hasV4, hasV6);
  }

  lemma {:induction false} FallbackWalksQueue(links: seq<Link>, c: nat, hasV4: bool, hasV6: bool, m: nat)
    requires CursorOk(c, |links|)
    requires Choose(links, c, hasV4, hasV6).Fallback?
    requires m <= |Queue(links, Usable(links, hasV4, hasV6), c)|
    ensures FallbackPicks(links, c, hasV4, hasV6, m) == Indices(Queue(links, Usable(links, hasV4, hasV6), c)[..m])
    decreases m
  {
    hide Queue, Choose, Usable, CursorOk;
    if m > 0 {
      FallbackRotates(links, c, hasV4, hasV6);
      var q, i := Queue(links, Usable(links, hasV4, hasV6), c), Choose(links, c, hasV4, hasV6).index;
      FallbackWalksQueue(links, Next(i, |links|), hasV4, hasV6, m - 1);
      assert (q[1..] + [q[0]])[..m - 1] == q[1..m];
      assert [i] + Indices(q[1..m]) == Indices(q[..m]);
    }
  }

  // The queue names the wanted links, each once.
  lemma QueueNames(links: seq<Link>, wanted: seq<bool>, c: nat)
    requires |wanted| == |links| && CursorOk(c, |links|)
    ensures var r := Indices(Queue(links, wanted, c));
            && (forall a, b :: 0 <= a < b < |r| ==> r[a] != r[b])
            && (forall i :: 0 <= i < |links| ==> (i in r <==> wanted[i]))
            && (forall i :: i in r ==> i < |links|)
  {
    hide Queue;
    var q := Queue(links, wanted, c);
    QueueContents(links, wanted, c);
    forall i | 0 <= i < |links| && wanted[i] ensures i in Indices(q) {
      QueueComplete(links, wanted, c, i);
      var k :| 0 <= k < |q| && q[k].index == i && q[k].ratio == links[i].ratio;
      assert Indices(q)[k] == i;
    }
    forall i | i in Indices(q) ensures i < |links| && wanted[i] {
      var k :| 0 <= k < |q| && Indices(q)[k] == i;
      assert q[k] in q;
    }
  }

  /** While every usable link is excluded, k consecutive fallback picks over k usable links
      are k different links: each usable link exactly once. */
  lemma FallbackVisitsEachOnce(links: seq<Link>, c: nat, hasV4: bool, hasV6: bool)
    requires CursorOk(c, |links|)
    requires Choose(links, c, hasV4, hasV6).Fallback?
    ensures var k := |Queue(links, Usable(links, hasV4, hasV6), c)|;
            var picks := FallbackPicks(links, c, hasV4, hasV6, k);
            && |picks| == k
            && (forall a, b :: 0 <= a < b < k ==> picks[a] != picks[b])
            && (forall i :: 0 <= i < |links| ==> (i in picks <==> links[i].UsableFor(hasV4, hasV6)))
  {
    hide Queue, Indices;
    var q := Queue(links, Usable(links, hasV4, hasV6), c);
    FallbackWalksQueue(links, c, hasV4, hasV6, |q|);
    assert q[..|q|] == q;
    QueueNames(links, Usable(links, hasV4, hasV6), c);
  }
}
