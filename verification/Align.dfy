/** Rounding to a multiple, as the block layer does it with power-of-two masks. */
module Align {

  function Down(x: nat, a: nat): (d: nat)
    requires a > 0
    ensures d <= x < d + a
  {
    x - x % a
  }

  /** ROUND_UP */
  function RoundUp(x: nat, a: nat): (u: nat)
    requires a > 0
    ensures x <= u < x + a
  {
    (x + a - 1) - (x + a - 1) % a
  }

  lemma {:induction false} AddMultiple(k: nat, a: nat, y: nat)
    requires a > 0
    ensures (k * a + y) % a == y % a
    decreases k
  {
    if k > 0 {
      AddMultiple(k - 1, a, y);
      assert k * a + y == (k - 1) * a + y + a;
      ModShift((k - 1) * a + y, a);
    }
  }

  lemma ModShift(x: nat, a: nat)
    requires a > 0
    ensures (x + a) % a == x % a
  {
    var q, r := x / a, x % a;
    assert x + a == (q + 1) * a + r;
    DivUnique(x + a, a, q + 1, r);
  }

  lemma Times(d: int, a: nat)
    ensures d >= 1 ==> d * a >= a
    ensures d <= -1 ==> d * a + a <= 0
  {
  }

  lemma Distribute(q: int, p: int, a: int)
    ensures (q - p) * a == q * a - p * a
  {
  }

  lemma DivUnique(x: nat, a: nat, q: nat, r: nat)
    requires a > 0 && x == q * a + r && r < a
    ensures x % a == r && x / a == q
  {
    var q', r' := x / a, x % a;
    Distribute(q, q', a);
    Times(q - q', a);
    assert q == q';
  }

  /** Adding a multiple of a does not change the remainder. */
  lemma AddAligned(b: nat, a: nat, y: nat)
    requires a > 0 && b % a == 0
    ensures (b + y) % a == y % a
  {
    assert b == (b / a) * a;
    AddMultiple(b / a, a, y);
  }

  lemma DownAligned(x: nat, a: nat)
    requires a > 0
    ensures Down(x, a) % a == 0
  {
    assert x == (x / a) * a + x % a;
    DivUnique(Down(x, a), a, x / a, 0);
  }

  lemma RoundUpAligned(x: nat, a: nat)
    requires a > 0
    ensures RoundUp(x, a) % a == 0
  {
    DownAligned(x + a - 1, a);
  }

  lemma RoundUpShift(b: nat, a: nat, y: nat)
    requires a > 0 && b % a == 0
    ensures RoundUp(b + y, a) == b + RoundUp(y, a)
  {
    AddAligned(b, a, y + a - 1);
  }

  /** Two multiples of a less than a apart are equal. */
  lemma AlignedClose(x: nat, y: nat, a: nat)
    requires a > 0 && x % a == 0 && y % a == 0 && x <= y < x + a
    ensures x == y
  {
    AddAligned(x, a, y - x);
  }

  /** Rounding up is rounding down plus one block, unless aligned already. */
  lemma RoundUpIs(x: nat, a: nat)
    requires a > 0
    ensures RoundUp(x, a) == if x % a == 0 then x else Down(x, a) + a
  {
    RoundUpAligned(x, a);
    DownAligned(x, a);
    if x % a == 0 {
      AlignedClose(x, RoundUp(x, a), a);
    } else {
      ModShift(Down(x, a), a);
      AlignedClose2(RoundUp(x, a), Down(x, a) + a, a);
    }
  }

  lemma AlignedClose2(x: nat, y: nat, a: nat)
    requires a > 0 && x % a == 0 && y % a == 0 && x < y + a && y < x + a
    ensures x == y
  {
    if x <= y {
      AlignedClose(x, y, a);
    } else {
      AlignedClose(y, x, a);
    }
  }
}
