/** What the frame arithmetic, the section store and the capture format need to know about integer division. */
module Division {
  lemma Multiples(d: int, b: int)
    requires b > 0
    ensures d >= 1 ==> d * b >= b
    ensures d <= -1 ==> d * b <= -b
    ensures d == 0 ==> d * b == 0
  {
  }

  lemma DivUnique(a: int, b: int, q: int, r: int)
    requires b > 0 && 0 <= r < b && a == q * b + r
    ensures a / b == q
  {
    assert a == (a / b) * b + a % b;
    assert (a / b - q) * b == r - a % b;
    Multiples(a / b - q, b);
  }

  lemma DivParts(n: nat, b: int)
    requires b > 0
    ensures n == (n / b) * b + n % b && 0 <= n % b < b
    ensures n / b >= 0 && 0 <= (n / b) * b <= n
  {
    Multiples(n / b, b);
  }

  lemma Negated(k: int, b: int)
    ensures (-k) * b == -(k * b)
  {
  }

  lemma DivNegative(a: nat, b: int)
    requires b < 0
    ensures a / b == -(a / -b)
  {
    Negated(a / b, b);
    Negated(a / b, -b);
    DivUnique(a, -b, -(a / b), a % b);
  }
}
