/** Euclidean division by a variable, which the ring buffer and the alias windows need. */
module Division {

  lemma TimesRises(a: int, b: int, d: nat)
    requires a <= b
    ensures d * a <= d * b
  {
  }

  lemma DivisionUnique(d: nat, q: int, r: nat, q': int, r': nat)
    requires d * q + r == d * q' + r' && r < d && r' < d
    ensures q == q' && r == r'
  {
    if q < q' {
      TimesRises(q + 1, q', d);
    } else if q' < q {
      TimesRises(q' + 1, q, d);
    }
  }

  lemma Remainder(d: nat, q: nat, r: nat)
    requires r < d
    ensures (d * q + r) % d == r
  {
    var v := d * q + r;
    DivisionUnique(d, q, r, v / d, v % d);
  }
}
