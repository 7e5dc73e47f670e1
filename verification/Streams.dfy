/**
A byte stream as its reader meets it: a sequence of deliveries, each of at least one
byte. How the sender's bytes are cut into deliveries is not under anybody's control.
*/
module Streams {
  import opened Links

  type Byte = n: nat | n < 256

  type Deliveries = seq<seq<Byte>>

  // Nothing is delivered as nothing.
  ghost predicate Proper(cs: Deliveries) {
    forall k :: 0 <= k < |cs| ==> cs[k] != []
  }

  // The bytes, however they were cut.
  function Flat(cs: Deliveries): seq<Byte> {
    if cs == [] then [] else cs[0] + Flat(cs[1..])
  }

  // What is left after the first m bytes.
  ghost function Drop(cs: Deliveries, m: nat): Deliveries {
    if cs == [] || m == 0 then cs
    else if m >= |cs[0]| then Drop(cs[1..], m - |cs[0]|)
    else [cs[0][m..]] + cs[1..]
  }

  // A single read gets all n bytes it asks for.
  ghost predicate Whole(cs: Deliveries, n: nat) {
    n == 0 || (cs != [] && |cs[0]| >= n)
  }

  // A delivery ends after exactly c bytes and another one follows.
  ghost predicate IsCut(cs: Deliveries, c: nat) {
    |cs| > 1 && (c == |cs[0]| || (c > |cs[0]| && IsCut(cs[1..], c - |cs[0]|)))
  }

  // Some delivery ends strictly between positions a and b.
  ghost predicate CutInside(cs: Deliveries, a: nat, b: nat) {
    exists c: nat :: a < c < b && IsCut(cs, c)
  }

  lemma {:induction false} DropIsProper(cs: Deliveries, m: nat)
    requires Proper(cs)
    ensures Proper(Drop(cs, m))
  {
    if cs != [] && m >= |cs[0]| && m != 0 {
      DropIsProper(cs[1..], m - |cs[0]|);
    }
  }

  lemma {:induction false} FlatDrop(cs: Deliveries, m: nat)
    requires m <= |Flat(cs)|
    ensures Flat(Drop(cs, m)) == Flat(cs)[m..]
  {
    if cs == [] || m == 0 {
    } else if m >= |cs[0]| {
      FlatDrop(cs[1..], m - |cs[0]|);
    } else {
      var left := [cs[0][m..]] + cs[1..];
      assert left[0] == cs[0][m..] && left[1..] == cs[1..];
    }
  }

  lemma DropUnfolds(cs: Deliveries, m: nat)
    ensures Drop(cs, m) ==
            if cs == [] || m == 0 then cs
            else if m >= |cs[0]| then Drop(cs[1..], m - |cs[0]|)
            else [cs[0][m..]] + cs[1..]
  {
  }

  lemma {:induction false} DropDrop(cs: Deliveries, a: nat, b: nat)
    requires Proper(cs) && a + b <= |Flat(cs)|
    ensures Drop(Drop(cs, a), b) == Drop(cs, a + b)
  {
    hide Drop, Flat;
    DropUnfolds(cs, a);
    DropUnfolds(cs, a + b);
    FlatUnfolds(cs);
    if cs == [] || a == 0 {
    } else if a >= |cs[0]| {
      DropDrop(cs[1..], a - |cs[0]|, b);
    } else {
      var left := [cs[0][a..]] + cs[1..];
      DropUnfolds(left, b);
      assert left[0] == cs[0][a..] && left[1..] == cs[1..];
      if b < |cs[0]| - a {
        assert cs[0][a..][b..] == cs[0][a + b..];
      }
    }
  }

  lemma FlatUnfolds(cs: Deliveries)
    ensures Flat([]) == []
    ensures cs != [] ==> Flat(cs) == cs[0] + Flat(cs[1..])
  {
  }

  lemma {:induction false} FlatConcat(cs: Deliveries, ds: Deliveries)
    ensures Flat(cs + ds) == Flat(cs) + Flat(ds)
  {
    hide Flat;
    FlatUnfolds(cs);
    if cs == [] {
      assert cs + ds == ds;
    } else {
      FlatConcat(cs[1..], ds);
      FlatUnfolds(cs + ds);
      assert (cs + ds)[1..] == cs[1..] + ds;
      assert cs[0] + (Flat(cs[1..]) + Flat(ds)) == cs[0] + Flat(cs[1..]) + Flat(ds);
    }
  }

  /** A single read at position a gets all its n bytes exactly when they are sent and no
      delivery ends strictly inside them. */
  lemma {:induction false} WholeIffNoCut(cs: Deliveries, a: nat, n: nat)
    requires Proper(cs) && a <= |Flat(cs)|
    ensures Whole(Drop(cs, a), n) <==> n == 0 || (a + n <= |Flat(cs)| && !CutInside(cs, a, a + n))
  {
    if cs != [] && a >= |cs[0]| {
      var h, rest := |cs[0]|, cs[1..];
      WholeIffNoCut(rest, a - h, n);
      if CutInside(rest, a - h, a - h + n) {
        var c: nat :| a - h < c < a - h + n && IsCut(rest, c);
        assert IsCut(cs, c + h);
      }
      if CutInside(cs, a, a + n) {
        var c: nat :| a < c < a + n && IsCut(cs, c);
        assert IsCut(rest, c - h);
      }
    } else if cs != [] && n > |cs[0]| - a {
      if |cs| > 1 {
        assert IsCut(cs, |cs[0]|);
      } else {
        assert cs[1..] == [];
      }
    }
  }

  // What is out once a message was written with room for so many more.
  function Sending(before: Deliveries, message: seq<Byte>, room: nat): Deliveries {
    if room > 0 then before + [message] else before
  }

  function Less(room: nat): nat {
    if room > 0 then room - 1 else 0
  }

  /** One end of a connection. A write goes out as one delivery; `room` is how many writes
      still get through before the connection fails. */
  class Conn {
    var incoming: Deliveries
    var outgoing: Deliveries
    var closed: bool
    var room: nat

    ghost predicate Valid()
      reads this
    {
      Proper(incoming)
    }

    constructor (incoming: Deliveries, room: nat)
      requires Proper(incoming)
      ensures Valid() && this.incoming == incoming && outgoing == [] && !closed && this.room == room
    {
      this.incoming, outgoing, closed, this.room := incoming, [], false, room;
    }

    // A single read: at most what the next delivery holds. A read of nothing succeeds at
    // once; with nothing more to come any other read fails.
    method Read(n: nat) returns (r: Option<seq<Byte>>)
      requires Valid()
      modifies this`incoming
      ensures Valid()
      ensures r.None? <==> n > 0 && old(incoming) == []
      ensures r.None? ==> incoming == []
      ensures r.Some? ==>
                && |r.value| <= n && |r.value| <= |Flat(old(incoming))| && (n > 0 ==> r.value != [])
                && r.value == Flat(old(incoming))[..|r.value|]
                && incoming == Drop(old(incoming), |r.value|)
      ensures r.Some? && |r.value| == n <==> Whole(old(incoming), n)
      ensures r.Some? && n > 0 ==> var next := |old(incoming)[0]|; |r.value| == if next <= n then next else n
    {
      if n == 0 {
        return Some([]);
      }
      if |incoming| == 0 {
        return None;
      }
      var head := incoming[0];
      if n >= |head| {
        r, incoming := Some(head), incoming[1..];
      } else {
        r, incoming := Some(head[..n]), [head[n..]] + incoming[1..];
      }
    }

    // Reads until all n bytes are there.
    method ReadFull(n: nat) returns (r: Option<seq<Byte>>)
      requires Valid()
      modifies this`incoming
      ensures Valid()
      ensures r.Some? <==> n <= |Flat(old(incoming))|
      ensures r.Some? ==> r.value == Flat(old(incoming))[..n] && incoming == Drop(old(incoming), n)
    {
      ghost var cs := incoming;
      var data: seq<Byte> := [];
      while |data| < n
        invariant Valid() && |data| <= n && |data| <= |Flat(cs)|
        invariant data == Flat(cs)[..|data|] && incoming == Drop(cs, |data|)
        decreases n - |data|
      {
        var m := |data|;
        FlatDrop(cs, m);
        var part := Read(n - m);
        if part.None? {
          return None;
        }
        DropDrop(cs, m, |part.value|);
        data := data + part.value;
      }
      return Some(data);
    }

    method Write(data: seq<Byte>) returns (ok: bool)
      requires data != []
      modifies this`outgoing, this`room
      ensures ok == (old(room) > 0)
      ensures outgoing == Sending(old(outgoing), data, old(room)) && room == Less(old(room))
      ensures ok ==> outgoing == old(outgoing) + [data] && room == old(room) - 1
      ensures !ok ==> outgoing == old(outgoing) && room == 0
    {
      ok := room > 0;
      if ok {
        outgoing, room := outgoing + [data], room - 1;
      }
    }

    method Close()
      modifies this`closed
      ensures closed
    {
      closed := true;
    }
  }
}
