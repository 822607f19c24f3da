/** Two facts about products and quotients. */
module Arith {
  lemma MulMono(a: int, b: int, c: nat)
    requires a <= b
    ensures a * c <= b * c
  {
  }

  lemma DivMod(i: nat, j: nat, n: nat)
    requires j < n
    ensures (i * n + j) / n == i && (i * n + j) % n == j
  {
    var k := i * n + j;
    assert n * (k / n) + k % n == k;
    if k / n < i {
      MulMono(k / n + 1, i, n);
    } else if k / n > i {
      MulMono(i + 1, k / n, n);
    }
  }
}
