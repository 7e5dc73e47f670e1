/**
The big-integer bitset of the tunnel retry loop (dispatcher/dispatcher.go:324-333):
`SetBit`, `And` and the all-ones mask, on unbounded naturals.
*/
module Bitset {

  function Bit(b: nat, i: nat): (r: nat)
    ensures r == 0 || r == 1
  {
    if i == 0 then b % 2 else Bit(b / 2, i - 1)
  }

  function SetBit(b: nat, i: nat): nat {
    if i == 0 then b / 2 * 2 + 1 else SetBit(b / 2, i - 1) * 2 + b % 2
  }

  function And(a: nat, b: nat): nat
    decreases a
  {
    if a == 0 || b == 0 then 0 else And(a / 2, b / 2) * 2 + (if a % 2 == 1 && b % 2 == 1 then 1 else 0)
  }

  function ShiftLeft(b: nat, n: nat): (r: nat)
    ensures b > 0 ==> r > 0
  {
    if n == 0 then b else 2 * ShiftLeft(b, n - 1)
  }

  // (1 << n) - 1
  function Mask(n: nat): nat {
    ShiftLeft(1, n) - 1
  }

  lemma {:induction false} EmptyHasNoBits(i: nat)
    ensures Bit(0, i) == 0
  {
    if i > 0 {
      EmptyHasNoBits(i - 1);
    }
  }

  lemma SetBitUnfolds(b: nat, i: nat)
    ensures i == 0 ==> SetBit(b, i) % 2 == 1 && SetBit(b, i) / 2 == b / 2
    ensures i > 0 ==> SetBit(b, i) % 2 == b % 2 && SetBit(b, i) / 2 == SetBit(b / 2, i - 1)
  {
  }

  lemma BitUnfolds(b: nat, j: nat)
    ensures Bit(b, j) == if j == 0 then b % 2 else Bit(b / 2, j - 1)
  {
  }

  /** SetBit sets the bit it names and no other. */
  lemma {:induction false} SetBitIsExact(b: nat, i: nat, j: nat)
    ensures Bit(SetBit(b, i), j) == if i == j then 1 else Bit(b, j)
  {
    hide Bit, SetBit;
    SetBitUnfolds(b, i);
    BitUnfolds(b, j);
    BitUnfolds(SetBit(b, i), j);
    if i > 0 && j > 0 {
      SetBitIsExact(b / 2, i - 1, j - 1);
    }
  }

  /** And works bit by bit. */
  lemma {:induction false} AndIsBitwise(a: nat, b: nat, j: nat)
    ensures Bit(And(a, b), j) == if Bit(a, j) == 1 && Bit(b, j) == 1 then 1 else 0
    decreases a
  {
    if a == 0 || b == 0 {
      EmptyHasNoBits(j);
    } else if j > 0 {
      AndIsBitwise(a / 2, b / 2, j - 1);
    }
  }

  // Numbers with the same bits are the same number.
  lemma {:induction false} BitsDetermine(a: nat, b: nat)
    requires forall j: nat :: Bit(a, j) == Bit(b, j)
    ensures a == b
    decreases a + b
  {
    assert Bit(a, 0) == Bit(b, 0);
    if a > 0 || b > 0 {
      forall j: nat ensures Bit(a / 2, j) == Bit(b / 2, j) {
        assert Bit(a, j + 1) == Bit(b, j + 1);
      }
      BitsDetermine(a / 2, b / 2);
    }
  }

  lemma {:induction false} MaskBits(n: nat, j: nat)
    ensures Bit(Mask(n), j) == if j < n then 1 else 0
  {
    if n == 0 {
      EmptyHasNoBits(j);
    } else {
      assert Mask(n) == 2 * Mask(n - 1) + 1;
      if j > 0 {
        MaskBits(n - 1, j - 1);
      }
    }
  }

  /** The completeness test of the retry loop: masking with 2^n - 1 gives the mask back
      exactly when bits 0 .. n-1 are all set. Higher bits do not matter. */
  lemma MaskedIsFull(b: nat, n: nat)
    ensures And(b, Mask(n)) == Mask(n) <==> forall j: nat :: j < n ==> Bit(b, j) == 1
  {
    var masked := And(b, Mask(n));
    if forall j: nat :: j < n ==> Bit(b, j) == 1 {
      forall j: nat ensures Bit(masked, j) == Bit(Mask(n), j) {
        AndIsBitwise(b, Mask(n), j);
        MaskBits(n, j);
      }
      BitsDetermine(masked, Mask(n));
    } else {
      var j: nat :| j < n && Bit(b, j) != 1;
      AndIsBitwise(b, Mask(n), j);
      MaskBits(n, j);
    }
  }
}
