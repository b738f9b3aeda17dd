/** The conversion from int to float64 (storage/query_builder.go, buildIntQuery; the index stores its numbers
    the same way): rounding to 53 significant bits, ties to even. */
module Rounding {
  const TWO_52 := 0x10_0000_0000_0000
  const TWO_53 := 0x20_0000_0000_0000

  /** The spacing of float64 values around `m`. */
  function Ulp(m: nat): (u: nat)
    ensures u >= 1
  {
    if m < TWO_53 then 1 else 2 * Ulp(m / 2)
  }

  function RoundHalfEven(m: nat, u: nat): nat
    requires u >= 1
  {
    var q, r := m / u, m % u;
    if 2 * r < u || (2 * r == u && q % 2 == 0) then q else q + 1
  }

  /** float64(i): the integer that the nearest float64 denotes */
  function Float64(i: int): int {
    if i < 0 then -(RoundHalfEven(-i, Ulp(-i)) * Ulp(-i)) else RoundHalfEven(i, Ulp(i)) * Ulp(i)
  }

  predicate Small(i: int) { -TWO_53 < i < TWO_53 }

  // ----- the order of the integers is kept

  lemma {:induction false} UlpBound(m: nat)
    requires m >= TWO_53
    ensures Ulp(m) >= 2 && TWO_52 * Ulp(m) <= m
  {
    if m / 2 >= TWO_53 { UlpBound(m / 2); }
  }

  lemma MulAtLeast(q: nat, u: nat)
    requires q >= TWO_52 && u >= 2
    ensures q * u >= TWO_53
  {
    assert q * u >= q * 2;
  }

  lemma MulMono(a: nat, b: nat, u: nat)
    requires a <= b
    ensures a * u <= b * u
  {
  }

  lemma DivAtLeast(m: nat, u: nat, k: nat)
    requires u >= 1 && k * u <= m
    ensures m / u >= k
  {
    var q := m / u;
    assert m < (q + 1) * u;
    if q < k { MulMono(q + 1, k, u); }
  }

  lemma RoundLarge(m: nat)
    requires m >= TWO_53
    ensures RoundHalfEven(m, Ulp(m)) * Ulp(m) >= TWO_53
  {
    UlpBound(m);
    DivAtLeast(m, Ulp(m), TWO_52);
    MulAtLeast(RoundHalfEven(m, Ulp(m)), Ulp(m));
  }

  /** Rounding keeps small integers and never brings a large one among them. */
  lemma Float64Order(i: int)
    ensures Small(i) ==> Float64(i) == i
    ensures i >= TWO_53 ==> Float64(i) >= TWO_53
    ensures i <= -TWO_53 ==> Float64(i) <= -TWO_53
  {
    if i >= TWO_53 { RoundLarge(i); }
    if i <= -TWO_53 { RoundLarge(-i); }
  }

  /** The spacing stays the same or at least doubles. */
  lemma {:induction false} UlpGrows(m: nat, n: nat)
    requires m <= n
    ensures Ulp(m) == Ulp(n) || 2 * Ulp(m) <= Ulp(n)
  {
    if m >= TWO_53 {
      UlpGrows(m / 2, n / 2);
    }
  }

  lemma {:induction false} UlpReaches(m: nat)
    ensures m < TWO_53 * Ulp(m)
  {
    if m >= TWO_53 {
      UlpReaches(m / 2);
    }
  }

  lemma DivMono(m: nat, n: nat, u: nat)
    requires u >= 1 && m <= n
    ensures m / u <= n / u
  {
    assert (m / u) * u <= m;
    DivAtLeast(n, u, m / u);
  }

  lemma RoundMono(m: nat, n: nat, u: nat)
    requires u >= 1 && m <= n
    ensures RoundHalfEven(m, u) <= RoundHalfEven(n, u)
  {
    DivMono(m, n, u);
    assert m == u * (m / u) + m % u && n == u * (n / u) + n % u;
  }

  lemma DivBelow(m: nat, u: nat, k: nat)
    requires u >= 1 && m < k * u
    ensures m / u < k
  {
    assert (m / u) * u <= m;
    if m / u >= k {
      MulMono(k, m / u, u);
    }
  }

  function Rounded(m: nat): nat { RoundHalfEven(m, Ulp(m)) * Ulp(m) }

  lemma RoundedMono(m: nat, n: nat)
    requires m <= n
    ensures Rounded(m) <= Rounded(n)
  {
    var u, v := Ulp(m), Ulp(n);
    UlpGrows(m, n);
    if u == v {
      RoundMono(m, n, u);
      MulMono(RoundHalfEven(m, u), RoundHalfEven(n, u), u);
    } else {
      UlpReaches(m);
      DivBelow(m, u, TWO_53);
      MulMono(RoundHalfEven(m, u), TWO_53, u);
      UlpBound(n);
      DivAtLeast(n, v, TWO_52);
      MulMono(TWO_52, RoundHalfEven(n, v), v);
      assert TWO_53 * u == TWO_52 * (2 * u);
      MulMono(2 * u, v, TWO_52);
    }
  }

  lemma Float64Monotone(i: int, j: int)
    requires i <= j
    ensures Float64(i) <= Float64(j)
  {
    hide RoundHalfEven;
    hide Ulp;
    assert i >= 0 ==> Float64(i) == Rounded(i);
    assert j < 0 ==> Float64(j) + Rounded(-j) == 0;
    if i >= 0 {
      RoundedMono(i, j);
    } else if j < 0 {
      RoundedMono(-j, -i);
    }
  }

  /** 2^53 and its successor become the same float64. */
  lemma FirstCollision()
    ensures Float64(TWO_53) == Float64(TWO_53 + 1) == TWO_53
  {
    assert Ulp(TWO_53) == 2 && Ulp(TWO_53 + 1) == 2 by { assert Ulp(TWO_52) == 1; }
  }

  // ----- the nearest

  function Pow2(k: nat): nat { if k == 0 then 1 else 2 * Pow2(k - 1) }

  lemma {:induction false} UlpIsPower(m: nat) returns (k: nat)
    ensures Ulp(m) == Pow2(k) && m < TWO_53 * Pow2(k) && (k > 0 ==> TWO_52 * Pow2(k) <= m)
  {
    UlpReaches(m);
    if m < TWO_53 {
      k := 0;
    } else {
      UlpBound(m);
      var j := UlpIsPower(m / 2);
      k := j + 1;
    }
  }

  /** The value is the multiple of a power of two that is nearest, of two such the even one; the power is the smallest
      with which 53 bits suffice. Negative numbers are rounded as their opposites. */
  lemma Float64Nearest(m: nat) returns (k: nat, q: nat)
    ensures m < TWO_53 * Pow2(k) && (k > 0 ==> TWO_52 * Pow2(k) <= m)
    ensures Float64(m) == q * Pow2(k) && 2 * (Float64(m) - m) <= Pow2(k) && 2 * (m - Float64(m)) <= Pow2(k)
    ensures 2 * (Float64(m) - m) == Pow2(k) || 2 * (m - Float64(m)) == Pow2(k) ==> q % 2 == 0
    ensures var n: int := m; Float64(-n) + Float64(n) == 0
  {
    k := UlpIsPower(m);
    var u := Ulp(m);
    q := RoundHalfEven(m, u);
    HalfEven(m, u);
    hide Ulp;
    hide Pow2;
    hide RoundHalfEven;
  }

  lemma HalfEven(m: nat, u: nat)
    requires u >= 1
    ensures
      var q := RoundHalfEven(m, u);
      2 * (q * u - m) <= u && 2 * (m - q * u) <= u && (2 * (q * u - m) == u || 2 * (m - q * u) == u ==> q % 2 == 0)
  {
    var q, r := m / u, m % u;
    assert m == q * u + r;
    assert (q + 1) * u == q * u + u;
  }
}
