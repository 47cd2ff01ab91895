/** Division with remainder, in the form the ring buffers need it. */
module Modular {
  lemma SmallMultiple(d: int, c: int)
    requires c > 0 && -c < d * c < c
    ensures d == 0
  {}

  lemma QuotientRemainder(n: int, c: int, q: int, r: int)
    requires c > 0 && n == q * c + r && 0 <= r < c
    ensures n / c == q && n % c == r
  {
    var d := n / c - q;
    assert d * c == n / c * c - q * c;
    assert n == n / c * c + n % c;
    SmallMultiple(d, c);
  }

  lemma NextLap(i: int, c: int)
    requires c > 0
    ensures (i + c) % c == i % c
  {
    assert i + c == (i / c + 1) * c + i % c;
    QuotientRemainder(i + c, c, i / c + 1, i % c);
  }

  lemma EqualResidues(i: int, j: int, c: int)
    requires c > 0 && -c < j - i < c && i % c == j % c
    ensures i == j
  {
    var d := j / c - i / c;
    assert d * c == j / c * c - i / c * c;
    assert i == i / c * c + i % c && j == j / c * c + j % c;
    SmallMultiple(d, c);
  }

  lemma DistinctResidues(i: int, j: int, c: int)
    requires c > 0 && i < j < i + c
    ensures i % c != j % c
  {
    if i % c == j % c {
      EqualResidues(i, j, c);
    }
  }
}
