/** Unsigned machine words as natural numbers: bitwise operators defined bit by bit, and wrapping arithmetic. */
module Words {
  function Pow2(k: nat): (p: nat)
    ensures p > 0
  {
    if k == 0 then 1 else 2 * Pow2(k - 1)
  }

  /** x & y */
  function And(x: nat, y: nat): (r: nat)
    ensures r <= x && r <= y
  {
    if x == 0 || y == 0 then 0
    else 2 * And(x / 2, y / 2) + if x % 2 == 1 && y % 2 == 1 then 1 else 0
  }

  /** x | y */
  function Or(x: nat, y: nat): nat
    decreases x + y
  {
    if x == 0 then y else if y == 0 then x
    else 2 * Or(x / 2, y / 2) + if x % 2 == 1 || y % 2 == 1 then 1 else 0
  }

  const WORD := 0x1_0000_0000_0000_0000

  type Word = x: nat | x < WORD

  function Add(x: Word, y: Word): Word { (x + y) % WORD }

  function Sub(x: Word, y: Word): Word { (x - y) % WORD }

  function Neg(x: Word): Word { (WORD - x) % WORD }

  predicate IsPow2(x: nat) { exists k :: 0 <= k <= x && x == Pow2(k) }

  lemma {:induction false} Pow2Grows(i: nat, j: nat)
    requires i < j
    ensures 2 * Pow2(i) <= Pow2(j)
  {
    if i + 1 < j { Pow2Grows(i, j - 1); }
  }

  lemma {:induction false} Pow2Exceeds(k: nat)
    ensures k < Pow2(k)
  {
    if k > 0 { Pow2Exceeds(k - 1); }
  }

  lemma WordIsPow2()
    ensures WORD == Pow2(64)
  {
    assert Pow2(8) == 256;
    Pow2Adds(8, 8);
    Pow2Adds(16, 16);
    Pow2Adds(32, 32);
  }

  lemma {:induction false} Pow2Adds(i: nat, j: nat)
    ensures Pow2(i + j) == Pow2(i) * Pow2(j)
  {
    if i > 0 { Pow2Adds(i - 1, j); }
  }

  /** The exponent of a power of two that fits in a word. */
  ghost function Log2(x: Word): (k: nat)
    requires IsPow2(x)
    ensures k < 64 && x == Pow2(k)
  {
    var k :| 0 <= k <= x && x == Pow2(k);
    WordIsPow2();
    if k >= 64 then
      assert false by { if k > 64 { Pow2Grows(64, k); } }
      0
    else k
  }

  lemma Distribute(m: int, a: int, b: int)
    ensures m * (a - b) == m * a - m * b
  {
  }

  lemma AtLeastOnce(m: nat, t: nat)
    requires t > 0
    ensures m * t >= m
  {
  }

  lemma ModUnique(x: int, m: nat, q: int, r: int)
    requires m > 0 && x == m * q + r && 0 <= r < m
    ensures x % m == r
  {
    var q', r' := x / m, x % m;
    assert x == m * q' + r';
    if q > q' {
      Distribute(m, q, q');
      AtLeastOnce(m, q - q');
    } else if q < q' {
      Distribute(m, q', q);
      AtLeastOnce(m, q' - q);
    }
  }

  lemma DivUnique(x: int, m: nat, q: int, r: int)
    requires m > 0 && x == m * q + r && 0 <= r < m
    ensures x / m == q
  {
    var q', r' := x / m, x % m;
    assert x == m * q' + r';
    if q > q' {
      Distribute(m, q, q');
      AtLeastOnce(m, q - q');
    } else if q < q' {
      Distribute(m, q', q);
      AtLeastOnce(m, q' - q);
    }
  }

  /** The low k bits of x. */
  function Low(x: nat, k: nat): nat {
    if k == 0 then 0 else 2 * Low(x / 2, k - 1) + x % 2
  }

  function High(x: nat, k: nat): nat {
    if k == 0 then x else High(x / 2, k - 1)
  }

  lemma SplitStep(x: nat, p: nat, h: nat, l: nat)
    requires x / 2 == p * h + l && l < p
    ensures x == 2 * p * h + (2 * l + x % 2) && 2 * l + x % 2 < 2 * p
  {
    assert 2 * p * h == 2 * (p * h);
  }

  lemma {:induction false} Split(x: nat, k: nat)
    ensures x == Pow2(k) * High(x, k) + Low(x, k) && Low(x, k) < Pow2(k)
  {
    if k > 0 {
      Split(x / 2, k - 1);
      SplitStep(x, Pow2(k - 1), High(x / 2, k - 1), Low(x / 2, k - 1));
    }
  }

  lemma HighIsDiv(x: nat, k: nat)
    ensures High(x, k) == x / Pow2(k)
  {
    hide High, Pow2;
    Split(x, k);
    DivUnique(x, Pow2(k), High(x, k), Low(x, k));
  }

  lemma LowIsMod(x: nat, k: nat)
    ensures Low(x, k) == x % Pow2(k)
  {
    Split(x, k);
    ModUnique(x, Pow2(k), High(x, k), Low(x, k));
  }

  /** Masking with a power of two less one keeps the low bits. */
  lemma {:induction false} AndMask(x: nat, k: nat)
    ensures And(x, Pow2(k) - 1) == Low(x, k)
  {
    if x == 0 {
      LowOfZero(k);
    } else if k > 0 {
      AndMask(x / 2, k - 1);
      assert (Pow2(k) - 1) / 2 == Pow2(k - 1) - 1 && (Pow2(k) - 1) % 2 == 1;
    }
  }

  lemma {:induction false} LowOfZero(k: nat)
    ensures Low(0, k) == 0
  {
    if k > 0 { LowOfZero(k - 1); }
  }

  lemma {:induction false} LowOfSmall(x: nat, k: nat)
    requires x < Pow2(k)
    ensures Low(x, k) == x
  {
    if k > 0 { LowOfSmall(x / 2, k - 1); }
  }

  lemma {:induction false} Pow2Monotone(i: nat, j: nat)
    requires i <= j
    ensures Pow2(i) <= Pow2(j)
  {
    if i < j { Pow2Grows(i, j); }
  }

  /** Masking with the negation of a power of two clears the low bits. */
  lemma {:induction false} AndNeg(x: nat, k: nat, w: nat)
    requires k <= w && x < Pow2(w) && Pow2(k) <= Pow2(w)
    ensures And(x, Pow2(w) - Pow2(k)) == x - Low(x, k)
    decreases w
  {
    if k == 0 {
      AndMask(x, w);
      LowOfSmall(x, w);
    } else if x == 0 {
      LowOfZero(k);
    } else {
      AndNeg(x / 2, k - 1, w - 1);
      var y := Pow2(w) - Pow2(k);
      assert y / 2 == Pow2(w - 1) - Pow2(k - 1) && y % 2 == 0;
      if y == 0 {
        assert k == w by { if k < w { Pow2Grows(k, w); } }
        LowOfSmall(x, k);
      }
    }
  }

  lemma {:induction false} LowOfNeg(w: nat, i: nat, j: nat)
    requires i <= w && j <= w && Pow2(i) <= Pow2(w)
    ensures Low(Pow2(w) - Pow2(i), j) == if i >= j then 0 else Pow2(j) - Pow2(i)
  {
    if j > 0 {
      var x := Pow2(w) - Pow2(i);
      if i == 0 {
        assert x / 2 == Pow2(w - 1) - Pow2(0) && x % 2 == 1;
        LowOfNeg(w - 1, 0, j - 1);
      } else {
        assert x / 2 == Pow2(w - 1) - Pow2(i - 1) && x % 2 == 0;
        LowOfNeg(w - 1, i - 1, j - 1);
      }
    }
  }

  lemma {:induction false} LowOfPow2(i: nat, j: nat)
    requires j <= i
    ensures Low(Pow2(i), j) == 0
  {
    if j > 0 { LowOfPow2(i - 1, j - 1); }
  }

  /** The larger of two powers of two, by negation and masking alone. */
  function MaxP2(a: Word, b: Word): Word {
    Neg(And(Neg(a), Neg(b)))
  }

  lemma MaxP2IsMax(a: Word, b: Word)
    requires IsPow2(a) && IsPow2(b)
    ensures MaxP2(a, b) == if a < b then b else a
  {
    hide And, Low, Pow2, IsPow2;
    var i, j := Log2(a), Log2(b);
    WordIsPow2();
    Pow2Grows(i, 64);
    Pow2Grows(j, 64);
    AndNeg(WORD - a, j, 64);
    LowOfNeg(64, i, j);
    if i >= j { Pow2Monotone(j, i); } else { Pow2Grows(i, j); }
  }

  /** Of two powers of two, the smaller divides the larger. */
  lemma Pow2Divides(a: Word, b: Word)
    requires IsPow2(a) && IsPow2(b) && a <= b
    ensures b % a == 0
  {
    var i, j := Log2(a), Log2(b);
    if j < i { Pow2Grows(j, i); }
    LowOfPow2(j, i);
    LowIsMod(b, i);
  }

  /** x & (a - 1) for a power of two a. */
  lemma MaskIsMod(x: nat, a: Word)
    requires IsPow2(a)
    ensures And(x, a - 1) == x % a
  {
    var k := Log2(a);
    AndMask(x, k);
    LowIsMod(x, k);
  }

  /** x & -a for a power of two a. */
  lemma NegMaskRoundsDown(x: Word, a: Word)
    requires IsPow2(a)
    ensures And(x, Neg(a)) == x - x % a
  {
    var k := Log2(a);
    WordIsPow2();
    Pow2Monotone(k, 64);
    assert Neg(a) == Pow2(64) - Pow2(k);
    AndNeg(x, k, 64);
    LowIsMod(x, k);
  }
}
