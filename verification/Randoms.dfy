/** random.h: the multiplicative generator modulo 2^31 - 1, whose reduction uses shifts and one subtraction. */
module Randoms {
  import opened Coding

  const M: nat := 0x7FFF_FFFF
  const A: nat := 16807
  const A_INVERSE: nat := 1407677000

  predicate InRange(seed: nat) {
    1 <= seed < M
  }

  /** What a step should compute. */
  function Step(seed: nat): nat {
    seed * A % M
  }

  function After(seed: nat, n: nat): nat {
    if n == 0 then seed else Step(After(seed, n - 1))
  }

  function Power(n: nat): nat {
    if n == 0 then 1 else Power(n - 1) * A
  }

  class Random {
    var seed: nat

    ghost predicate Valid()
      reads this
    {
      InRange(seed)
    }

    constructor (s: Word)
      ensures Valid()
      ensures var low := s % 0x8000_0000; seed == if low == 0 || low == M then 1 else low
    {
      var low := s % 0x8000_0000;
      seed := if low == 0 || low == M then 1 else low;
    }

    /** The product's upper bits are added to its lower 31 bits, and what overflows is subtracted once. */
    method Next() returns (r: nat)
      requires Valid()
      modifies this
      ensures Valid() && seed == r == Step(old(seed))
    {
      var product := seed * A;
      StepInRange(seed);
      Reduction(product);
      seed := product / 0x8000_0000 + product % 0x8000_0000;
      if seed > M {
        seed := seed - M;
      }
      r := seed;
    }
  }

  /** One conditional subtraction is enough, unless the product is a multiple of the modulus. */
  lemma Reduction(product: nat)
    requires product < A * M && product % M != 0
    ensures var s := product / 0x8000_0000 + product % 0x8000_0000;
            s < TWO32 && product % M == if s > M then s - M else s
  {
  }

  lemma Remainder(x: nat, q: int, r: nat)
    requires x == q * M + r && r < M
    ensures x % M == r
  {
  }

  /** Step is undone by multiplying with the inverse of A, so it never reaches 0. */
  lemma StepBack(seed: nat)
    requires seed < M
    ensures Step(seed) * A_INVERSE % M == seed
  {
    var k, j := seed * A / M, A * A_INVERSE / M;
    assert A * A_INVERSE == j * M + 1;
    Remainder(Step(seed) * A_INVERSE, seed * j - k * A_INVERSE, seed);
  }

  lemma StepInRange(seed: nat)
    requires InRange(seed)
    ensures InRange(Step(seed)) && seed * A < A * M && seed * A % M != 0
  {
    StepBack(seed);
  }

  /** On every run the state stays in range, so Next keeps computing exact steps... */
  lemma {:induction false} AfterInRange(seed: nat, n: nat)
    requires InRange(seed)
    ensures InRange(After(seed, n))
  {
    if n > 0 {
      AfterInRange(seed, n - 1);
      StepInRange(After(seed, n - 1));
    }
  }

  /** ...and n steps multiply by the n-th power of A. */
  lemma {:induction false} AfterIsPower(seed: nat, n: nat)
    requires InRange(seed)
    ensures After(seed, n) == seed * Power(n) % M
  {
    if n == 0 {
      Remainder(seed, 0, seed);
    } else {
      AfterIsPower(seed, n - 1);
      var x := seed * Power(n - 1);
      var k := x / M;
      assert x == k * M + After(seed, n - 1);
      var y := After(seed, n - 1) * A;
      assert x * A == (k * A + y / M) * M + y % M;
      Remainder(x * A, k * A + y / M, y % M);
      assert seed * Power(n) == x * A;
    }
  }
}
