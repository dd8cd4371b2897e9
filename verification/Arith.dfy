/** Facts about division, remainder and powers that the index arithmetic of the other modules needs. */
module Arith {

  /** The successor of an index in a ring of `c` positions, by remainder and by wrap-around test. */
  lemma ModSucc(n: nat, c: nat)
    requires c > 0
    ensures (n + 1) % c == if n % c + 1 == c then 0 else n % c + 1
  {
    var q, r := n / c, n % c;
    assert n == q * c + r;
    if r + 1 == c {
      assert n + 1 == (q + 1) * c;
      ModOf(q + 1, 0, c);
    } else {
      assert n + 1 == q * c + (r + 1);
      ModOf(q, r + 1, c);
    }
  }

  /** Quotient and remainder are determined by the decomposition. */
  lemma ModOf(q: nat, r: nat, c: nat)
    requires r < c
    ensures (q * c + r) % c == r && (q * c + r) / c == q
  {
    var n := q * c + r;
    assert n == (n / c) * c + n % c;
    assert (n / c + 1) * c == (n / c) * c + c && (q + 1) * c == q * c + c;
    if n / c < q {
      MulLe(n / c + 1, q, c);
    } else if n / c > q {
      MulLe(q + 1, n / c, c);
    }
  }

  lemma MulLe(a: nat, b: nat, c: nat)
    requires a <= b
    ensures a * c <= b * c
  {
  }

  /** Two numbers less than one lap apart have different remainders. */
  lemma ModDistinct(a: nat, b: nat, c: nat)
    requires a < b < a + c
    ensures a % c != b % c
  {
    if a % c == b % c {
      var qa, qb := a / c, b / c;
      assert a == qa * c + a % c && b == qb * c + b % c;
      assert b - a == (qb - qa) * c;
      if qb <= qa {
        MulLe(qb, qa, c);
      } else {
        MulLe(1, qb - qa, c);
      }
      assert false;
    }
  }

  lemma ModAddLap(n: nat, c: nat)
    requires c > 0
    ensures (n + c) % c == n % c
  {
    ModOf(n / c + 1, n % c, c);
    assert n + c == (n / c + 1) * c + n % c;
  }

  /** The numbers below `n`. */
  function Below(n: nat): (s: set<nat>)
    ensures forall i: nat :: i in s <==> i < n
    ensures |s| == n
  {
    if n == 0 then {} else Below(n - 1) + {n - 1}
  }

  function Pow(w: nat, k: nat): nat {
    if k == 0 then 1 else Pow(w, k - 1) * w
  }

  lemma {:induction false} PowPositive(w: nat, k: nat)
    requires w > 0
    ensures Pow(w, k) > 0
  {
    if k > 0 {
      PowPositive(w, k - 1);
      MulLe(1, Pow(w, k - 1), w);
    }
  }

  lemma MulAssoc(x: int, y: int, z: int)
    ensures (x * y) * z == x * (y * z)
  {
  }

  lemma {:induction false} PowAdd(w: nat, a: nat, b: nat)
    ensures Pow(w, a + b) == Pow(w, a) * Pow(w, b)
  {
    if b > 0 {
      PowAdd(w, a, b - 1);
      MulAssoc(Pow(w, a), Pow(w, b - 1), w);
    }
  }

  lemma {:induction false} PowGrows(w: nat, a: nat, b: nat)
    requires w >= 2 && a < b
    ensures Pow(w, a) < Pow(w, b)
  {
    PowPositive(w, b - 1);
    MulLe(2, w, Pow(w, b - 1));
    if a < b - 1 {
      PowGrows(w, a, b - 1);
    }
  }

  /** A number below S * w * m splits into a block, a digit and an offset. */
  lemma Split(hi: nat, t: nat, lo: nat, s: nat, w: nat)
    requires t < w && lo < s
    ensures var q := hi * (s * w) + t * s + lo;
            q / (s * w) == hi && q % (s * w) == t * s + lo && q % s == lo && q / s == hi * w + t
  {
    var q := hi * (s * w) + t * s + lo;
    MulLe(t + 1, w, s);
    assert (t + 1) * s == t * s + s;
    assert w * s == s * w;
    ModOf(hi, t * s + lo, s * w);
    Regroup(hi, t, s, w);
    ModOf(hi * w + t, lo, s);
  }

  /** Every number is such a sum. */
  lemma Digits(q: nat, s: nat, w: nat) returns (t: nat)
    requires s > 0 && w > 0 && s * w > 0
    ensures t < w && q == (q / (s * w)) * (s * w) + t * s + q % s
    ensures q / s == (q / (s * w)) * w + t
  {
    var d, lo := q / s, q % s;
    var hi := d / w;
    t := d % w;
    DivMod(q, s);
    DivMod(d, w);
    Recombine(q, hi, t, lo, s, w);
    Split(hi, t, lo, s, w);
  }

  lemma DivDiv(x: nat, a: nat, b: nat)
    requires a > 0 && b > 0 && a * b > 0
    ensures x / (a * b) == (x / a) / b
  {
    var t := Digits(x, a, b);
    ModOf(x / (a * b), t, b);
  }

  lemma DivMod(n: nat, c: nat)
    requires c > 0
    ensures n == (n / c) * c + n % c
  {
  }

  lemma Recombine(q: nat, hi: nat, t: nat, lo: nat, s: nat, w: nat)
    requires q == (hi * w + t) * s + lo
    ensures q == hi * (s * w) + t * s + lo
  {
    Regroup(hi, t, s, w);
  }

  lemma Regroup(hi: nat, t: nat, s: nat, w: nat)
    ensures (hi * w + t) * s == hi * (s * w) + t * s
  {
    assert (hi * w + t) * s == hi * w * s + t * s;
    assert hi * w * s == hi * (w * s);
    assert w * s == s * w;
  }
}
