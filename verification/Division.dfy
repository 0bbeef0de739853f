/** Quotient and remainder by a variable divisor. */
module Division {
  lemma MultipleIsFar(p: int, d: int)
    requires p >= 0
    ensures d >= 1 ==> p * d >= p
    ensures d <= -1 ==> p * d <= -p
  {
  }

  lemma QuotientIs(x: nat, p: nat, q: nat, r: nat)
    requires p > 0 && x == p * q + r && r < p
    ensures x / p == q && x % p == r
  {
    var d := q - x / p;
    assert x == p * (x / p) + x % p;
    assert p * d == p * q - p * (x / p);
    MultipleIsFar(p, d);
  }

  lemma Divided(v: nat, radix: nat)
    requires radix >= 2
    ensures v / radix * radix + v % radix == v
    ensures 0 <= v / radix && (v > 0 ==> v / radix < v)
    ensures v % radix < radix
  {
  }

  lemma NextRemainder(t: nat, p: nat)
    requires p > 0
    ensures (t + 1) % p == if t % p + 1 == p then 0 else t % p + 1
  {
    var q, r := t / p, t % p;
    if r + 1 == p {
      assert t + 1 == p * (q + 1) + 0;
      QuotientIs(t + 1, p, q + 1, 0);
    } else {
      QuotientIs(t + 1, p, q, r + 1);
    }
  }
}
