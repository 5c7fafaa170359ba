// Products, quotients and powers of two, and the bitwise or of two naturals.

module Arith {
  function Min(a: int, b: int): (m: int)
    ensures m <= a && m <= b && (m == a || m == b)
  {
    if a < b then a else b
  }

  function Max(a: int, b: int): (m: int)
    ensures a <= m && b <= m && (m == a || m == b)
  {
    if a < b then b else a
  }

  lemma Products(a: nat, b: nat, c: nat)
    requires a <= b
    ensures a * c <= b * c && c * a <= c * b
  {
  }

  lemma OneMore(a: int, b: int)
    ensures (a + 1) * b == a * b + b
  {
  }

  lemma Reordered(a: nat, b: nat, c: nat)
    ensures a * (b * c) == c * (a * b)
  {
  }

  lemma Quotient(a: nat, b: nat)
    requires 0 < b
    ensures b * (a / b) <= a < b * (a / b + 1) && a % b == a - b * (a / b)
  {
    assert b * (a / b) + a % b == a;
  }

  lemma Divides(a: nat, b: nat, q: nat, r: int)
    requires 0 < b && a == q * b + r && 0 <= r < b
    ensures a / b == q && a % b == r
  {
    var d := a / b;
    assert a == d * b + a % b;
    if d < q {
      Products(d + 1, q, b);
    } else if q < d {
      Products(q + 1, d, b);
    }
  }

  lemma Rebuilt(a: nat, b: nat, q: nat, r: nat)
    requires 0 < b && a == q * b + r && r < b
    ensures a % b == r
  {
    Divides(a, b, q, r);
  }

  // A remainder is not changed by taking one by a multiple before.
  lemma Multiples(a: nat, b: nat, m: nat)
    requires 0 < b && 0 < m
    ensures b * m > 0 && a % (b * m) % b == a % b
  {
    Products(1, m, b);
    MultiplesOf(a, b, m, b * m);
  }

  lemma MultiplesOf(a: nat, b: nat, m: nat, n: nat)
    requires 0 < b && 0 < n && n == b * m
    ensures a % n % b == a % b
  {
    var q, r := a / n, a % n;
    Quotient(a, n);
    var t, u := r / b, r % b;
    Quotient(r, b);
    RegroupProduct(b, m, q, t);
    Rebuilt(a, b, m * q + t, u);
  }

  lemma RegroupProduct(b: nat, m: nat, q: nat, t: nat)
    ensures b * m * q + b * t == (m * q + t) * b
  {
    assert b * m * q == b * (m * q);
  }

  // A stretch that does not cross a multiple of b does not cross one of b * m either.
  lemma NotCrossed(a: nat, b: nat, m: nat, len: nat)
    requires 0 < b && 0 < m && a % b + len <= b
    ensures b * m > 0 && a % (b * m) + len <= b * m
  {
    Multiples(a, b, m);
    var r := a % (b * m);
    Quotient(a, b * m);
    Quotient(r, b);
    if r / b >= m {
      Products(m, r / b, b);
      assert false;
    }
    Products(r / b + 1, m, b);
  }

  lemma Nested(w: nat, a: nat, b: nat)
    requires 0 < a && 0 < b
    ensures a * b > 0 && w / (a * b) == w / a / b
  {
    Products(1, b, a);
    var q, r := w / a, w % a;
    var d, e := q / b, q % b;
    Quotient(w, a);
    Quotient(q, b);
    Products(e + 1, b, a);
    assert w == d * (a * b) + (e * a + r) by {
      assert a * (b * d + e) == a * b * d + a * e;
    }
    Divides(w, a * b, d, e * a + r);
  }

  lemma Shifted(w: nat, a: nat, m: nat)
    requires 0 < a
    ensures (w + m * a) / a == w / a + m && (w + m * a) % a == w % a
  {
    var q, r := w / a, w % a;
    Quotient(w, a);
    assert (q + m) * a == q * a + m * a;
    Divides(w + m * a, a, q + m, r);
  }

  lemma Regrouped(f: nat, a: nat, b: nat, rest: nat)
    ensures f * (a * b * rest) == f * rest * b * a
  {
    assert f * (a * b * rest) == (f * rest) * (a * b) by {
      assert a * b * rest == rest * (a * b);
    }
    assert (f * rest) * (a * b) == (f * rest) * b * a;
  }

  // Adding a multiple of all leaves the digit of weight a to the base b as it is.
  lemma AboveField(w: nat, a: nat, b: nat, rest: nat, f: nat, all: nat)
    requires 0 < a && 0 < b && all == a * b * rest
    ensures (w + f * all) / a % b == w / a % b
  {
    Regrouped(f, a, b, rest);
    Shifted(w, a, f * rest * b);
    Shifted(w / a, b, f * rest);
  }

  function Pow2(n: nat): (p: nat)
    ensures p > 0
  {
    if n == 0 then 1 else 2 * Pow2(n - 1)
  }

  lemma Twice(a: nat, b: nat)
    ensures 2 * a * b == 2 * (a * b)
  {
  }

  lemma {:induction false} PowersAdd(m: nat, n: nat)
    ensures Pow2(m + n) == Pow2(m) * Pow2(n)
  {
    if m > 0 {
      PowersAdd(m - 1, n);
      Twice(Pow2(m - 1), Pow2(n));
    }
  }

  lemma {:induction false} PowersRise(m: nat, n: nat)
    requires m <= n
    ensures Pow2(m) <= Pow2(n)
  {
    PowersAdd(m, n - m);
    Products(1, Pow2(n - m), Pow2(m));
  }

  function Or(a: nat, b: nat): nat {
    if a == 0 then b
    else if b == 0 then a
    else 2 * Or(a / 2, b / 2) + if a % 2 == 1 || b % 2 == 1 then 1 else 0
  }

  predicate Disjoint(a: nat, b: nat) {
    a == 0 || b == 0 || (!(a % 2 == 1 && b % 2 == 1) && Disjoint(a / 2, b / 2))
  }

  lemma {:induction false} DisjointAdds(a: nat, b: nat)
    requires Disjoint(a, b)
    ensures Or(a, b) == a + b
  {
    if a != 0 && b != 0 {
      DisjointAdds(a / 2, b / 2);
    }
  }

  // The binary digits of a bitwise or
  lemma {:induction false} OrDigit(a: nat, b: nat, k: nat)
    ensures Or(a, b) / Pow2(k) % 2 == 1 <==> a / Pow2(k) % 2 == 1 || b / Pow2(k) % 2 == 1
    decreases a
  {
    if a == 0 || b == 0 {
      Divides(0, Pow2(k), 0, 0);
    } else if k > 0 {
      OrDigit(a / 2, b / 2, k - 1);
      var o, p := Or(a, b), Pow2(k - 1);
      assert o / 2 == Or(a / 2, b / 2) && Pow2(k) == 2 * p;
      hide Or, Pow2;
      Nested(a, 2, p);
      Nested(b, 2, p);
      Nested(o, 2, p);
    } else {
      assert Pow2(0) == 1;
    }
  }
}
