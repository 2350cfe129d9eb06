/** Products under a name, so that proofs that do not compute with them can hide
    them, and the few facts the proofs use. */
module Products {

  function Times(a: int, b: int): int { a * b }

  /** A product of values. */
  function Mul(a: real, b: real): real { a * b }

  /** A product of natural numbers. */
  function Scale(a: nat, b: nat): nat { a * b }

  /** How often a fits into n. */
  function Quot(n: nat, a: nat): nat
    requires a >= 1
  {
    n / a
  }

  lemma TimesZero(a: int)
    ensures Times(a, 0) == 0
  {
  }

  lemma TimesOne(n: int)
    ensures Times(1, n) == n
  {
  }

  /** One step more on both sides. */
  lemma StepOnce(start: int, step: int, n: int)
    ensures start + step + Times(step, n - 1) == start + Times(step, n)
  {
  }

  lemma TimesSum(a: int, m: int, n: int)
    ensures Times(a, m) + Times(a, n) == Times(a, m + n)
  {
  }

  lemma TimesNext(size: nat, i: nat, n: nat)
    requires i < n
    ensures 0 <= Times(size, i) && Times(size, i + 1) == Times(size, i) + size <= Times(size, n)
  {
    assert (n - i - 1) * size >= 0;
    assert n * size == i * size + size + (n - i - 1) * size;
  }

  lemma TimesSucc(a: int, k: int)
    ensures Times(a, k + 1) == Times(a, k) + a
  {
  }

  lemma MulLeft(a: real, b: real, c: real)
    ensures Mul(a + b, c) == Mul(a, c) + Mul(b, c)
  {
  }

  lemma MulRight(a: real, b: real, c: real)
    ensures Mul(a, b + c) == Mul(a, b) + Mul(a, c)
  {
  }

  lemma MulAssoc(a: real, b: real, c: real)
    ensures Mul(Mul(a, b), c) == Mul(a, Mul(b, c))
  {
  }

  lemma MulComm(a: real, b: real)
    ensures Mul(a, b) == Mul(b, a)
  {
  }

  lemma MulNeg(a: real, b: real)
    ensures Mul(-a, b) == -Mul(a, b)
  {
  }
}
