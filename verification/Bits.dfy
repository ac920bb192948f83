/**
 Unsigned 32-bit words as natural numbers. Shifts are repeated doubling and halving, AND and OR work
 bit by bit; the lemmas say what they mean as arithmetic.
 */
module Bits {
  const WORD := 0x1_0000_0000
  const MAX_WORD := 0xFFFF_FFFF

  /** `x` times two to the `k`. */
  function Scale(x: nat, k: nat): nat {
    if k == 0 then x else 2 * Scale(x, k - 1)
  }

  /** `x` without its low `k` bits, moved down. */
  function Drop(x: nat, k: nat): nat {
    if k == 0 then x else Drop(x / 2, k - 1)
  }

  function And(x: nat, y: nat): nat {
    if x == 0 || y == 0 then 0 else 2 * And(x / 2, y / 2) + (if x % 2 == 1 && y % 2 == 1 then 1 else 0)
  }

  function Or(x: nat, y: nat): nat
    decreases x + y
  {
    if x == 0 then y else if y == 0 then x
    else 2 * Or(x / 2, y / 2) + (if x % 2 == 1 || y % 2 == 1 then 1 else 0)
  }

  /** `~x` */
  function Not(x: nat): nat
    requires x < WORD
  {
    MAX_WORD - x
  }

  /** `x >> count`: only the low five bits of the count are used. */
  function ShiftRight(x: nat, count: nat): nat {
    Drop(x, count % 32)
  }

  /** `x << count`, dropping the bits that leave the word. */
  function ShiftLeft(x: nat, count: nat): nat {
    Scale(x, count % 32) % WORD
  }

  /** `n` one bits. */
  function Ones(n: nat): (r: nat)
    ensures r + 1 == Scale(1, n)
  {
    if n == 0 then 0 else 2 * Ones(n - 1) + 1
  }

  lemma WordSize()
    ensures Scale(1, 32) == WORD && Ones(32) == MAX_WORD
  {
    assert Scale(1, 8) == 256;
    ScaleAdds(1, 8, 8);
    assert Scale(256, 8) == 65536;
    ScaleAdds(1, 16, 16);
    assert Scale(65536, 8) == 16777216;
    ScaleAdds(65536, 8, 8);
    assert Scale(16777216, 8) == WORD;
  }

  lemma {:induction false} ScaleAdds(x: nat, m: nat, n: nat)
    ensures Scale(Scale(x, m), n) == Scale(x, m + n)
  {
    if n > 0 { ScaleAdds(x, m, n - 1); }
  }

  lemma {:induction false} ScaleSum(a: nat, b: nat, k: nat)
    ensures Scale(a + b, k) == Scale(a, k) + Scale(b, k)
  {
    if k > 0 { ScaleSum(a, b, k - 1); }
  }

  /** Quotient and remainder by a power of two. */
  lemma {:induction false} DropOfSum(q: nat, k: nat, r: nat)
    requires r < Scale(1, k)
    ensures Drop(Scale(q, k) + r, k) == q
  {
    if k > 0 { DropOfSum(q, k - 1, r / 2); }
  }

  lemma {:induction false} SplitAt(x: nat, k: nat)
    ensures Scale(Drop(x, k), k) <= x < Scale(Drop(x, k), k) + Scale(1, k)
  {
    if k > 0 { SplitAt(x / 2, k - 1); }
  }

  lemma {:induction false} DropBound(x: nat, m: nat, k: nat)
    requires x < Scale(1, m + k)
    ensures Drop(x, k) < Scale(1, m)
  {
    if k > 0 { DropBound(x / 2, m, k - 1); }
  }

  /** OR with bits that are all free is addition. */
  lemma {:induction false} OrOfDisjoint(x: nat, k: nat, y: nat)
    requires y < Scale(1, k)
    ensures Or(Scale(x, k), y) == Scale(x, k) + y
  {
    if k > 0 && y > 0 { OrOfDisjoint(x, k - 1, y / 2); }
  }

  /** AND with enough low ones changes nothing. */
  lemma {:induction false} AndOnes(x: nat, n: nat)
    requires x < Scale(1, n)
    ensures And(x, Ones(n)) == x
  {
    if n > 0 && x > 0 { AndOnes(x / 2, n - 1); }
  }

  /** AND with a mask shifted up ignores the low bits. */
  lemma {:induction false} AndScaled(x: nat, y: nat, k: nat)
    ensures And(x, Scale(y, k)) == Scale(And(Drop(x, k), y), k)
  {
    if k > 0 { AndScaled(x / 2, y, k - 1); }
  }
}
