/** Multiplication, quotient and remainder by repeated addition and subtraction. They equal
    Dafny's own operators (NativeMul, NativeDivMod); the sizes of the kernel's tables are
    variables, and these forms keep products of variables out of every other proof. */
module Arith {

  function Min(a: int, b: int): int { if a < b then a else b }
  function Max(a: int, b: int): int { if a < b then b else a }

  function Mul(a: nat, n: nat): (r: nat) {
    if a == 0 then 0 else Mul(a - 1, n) + n
  }

  function Div(a: nat, n: nat): (r: nat)
    requires n > 0
    decreases a
  {
    if a < n then 0 else 1 + Div(a - n, n)
  }

  function Mod(a: nat, n: nat): (r: nat)
    requires n > 0
    ensures r < n && r <= a
    decreases a
  {
    if a < n then a else Mod(a - n, n)
  }

  lemma {:induction false} NativeMul(a: nat, n: nat)
    ensures Mul(a, n) == a * n
  {
    if a > 0 { NativeMul(a - 1, n); }
  }

  lemma {:induction false} DivMod(a: nat, n: nat)
    requires n > 0
    ensures a == Mul(Div(a, n), n) + Mod(a, n)
    decreases a
  {
    if a >= n { DivMod(a - n, n); }
  }

  lemma {:induction false} DivModOf(g: nat, n: nat, k: nat)
    requires k < n
    ensures Div(Mul(g, n) + k, n) == g && Mod(Mul(g, n) + k, n) == k
  {
    if g > 0 {
      DivModOf(g - 1, n, k);
      assert Mul(g, n) + k - n == Mul(g - 1, n) + k;
    }
  }

  lemma NativeDivMod(a: nat, n: nat)
    requires n > 0
    ensures Div(a, n) == a / n && Mod(a, n) == a % n
  {
    DivMod(a, n);
    NativeMul(Div(a, n), n);
    DivisionIsUnique(a, n, Div(a, n), Mod(a, n));
  }

  lemma DivisionIsUnique(a: int, n: int, q: int, r: int)
    requires 0 <= r < n && a == q * n + r
    ensures q == a / n && r == a % n
  {
    var p, s := a / n, a % n;
    var d := q - p;
    assert d * n == s - r by {
      assert p * n + s == q * n + r;
      assert d * n == q * n - p * n;
    }
    if d >= 1 { AtLeastOnce(d, n); } else if d <= -1 { AtLeastOnce(-d, n); }
  }

  lemma AtLeastOnce(d: int, n: int)
    requires d >= 1 && n >= 1
    ensures d * n >= n && (-d) * n <= -n
  {
  }

  lemma DivPositive(a: nat, n: nat)
    requires 0 < n <= a
    ensures Div(a, n) >= 1
  {
  }

  lemma {:induction false} MulMono(a: nat, b: nat, n: nat)
    requires a <= b
    ensures Mul(a, n) <= Mul(b, n)
    decreases b
  {
    if a < b { MulMono(a, b - 1, n); }
  }

  lemma {:induction false} MulAdd(a: nat, b: nat, n: nat)
    ensures Mul(a + b, n) == Mul(a, n) + Mul(b, n)
    decreases b
  {
    if b > 0 { MulAdd(a, b - 1, n); }
  }

  lemma MulOne(n: nat)
    ensures Mul(0, n) == 0 && Mul(1, n) == n
  {
  }

  lemma {:induction false} MulZero(a: nat)
    ensures Mul(a, 0) == 0
  {
    if a > 0 { MulZero(a - 1); }
  }

  lemma {:induction false} MulSucc(a: nat, n: nat)
    ensures Mul(a, n + 1) == Mul(a, n) + a
  {
    if a > 0 { MulSucc(a - 1, n); }
  }

  lemma {:induction false} MulCommutes(a: nat, n: nat)
    ensures Mul(a, n) == Mul(n, a)
  {
    if a == 0 {
      MulZero(n);
    } else {
      MulCommutes(a - 1, n);
      MulSucc(n, a - 1);
    }
  }

  lemma {:induction false} MulAssoc(a: nat, b: nat, n: nat)
    ensures Mul(Mul(a, b), n) == Mul(a, Mul(b, n))
  {
    if a > 0 {
      MulAssoc(a - 1, b, n);
      MulAdd(Mul(a - 1, b), b, n);
    }
  }

  /** A number below `a * n` has its quotient below `a`, and conversely. */
  lemma DivBelow(x: nat, a: nat, n: nat)
    requires n > 0
    ensures x < Mul(a, n) <==> Div(x, n) < a
  {
    DivMod(x, n);
    if Div(x, n) < a {
      MulMono(Div(x, n) + 1, a, n);
    } else {
      MulMono(a, Div(x, n), n);
    }
  }

  /** Rounded-up quotient: the number of `n`-sized pieces that cover `a`. */
  function CeilDiv(a: nat, n: nat): (r: nat)
    requires n > 0
  {
    Div(a + n - 1, n)
  }

  lemma CeilCovers(a: nat, n: nat)
    requires n > 0
    ensures a <= Mul(CeilDiv(a, n), n) < a + n
  {
    DivMod(a + n - 1, n);
  }

  lemma CeilOf(a: nat, n: nat, q: nat)
    requires n > 0 && a <= Mul(q, n) < a + n
    ensures CeilDiv(a, n) == q
  {
    DivModOf(q, n, a + n - 1 - Mul(q, n));
  }

  /** `Div(x, n) < CeilDiv(a, n)` for every `x` below `a`. */
  lemma DivInCeil(x: nat, a: nat, n: nat)
    requires n > 0 && x < a
    ensures Div(x, n) < CeilDiv(a, n)
  {
    CeilCovers(a, n);
    DivBelow(x, CeilDiv(a, n), n);
  }
}
