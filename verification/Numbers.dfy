/** Arithmetic that several models need. */
module Numbers {
  function Min(a: int, b: int): int { if a <= b then a else b }

  lemma MulOrder(a: int, b: int, c: nat)
    requires a <= b
    ensures a * c <= b * c
  {
  }

  lemma NextMultiple(w: int, a: int, b: int)
    requires w > 0 && a < b
    ensures w * a + w <= w * b
  {
    MulOrder(a + 1, b, w);
  }

  lemma DivUnique(x: int, w: int, k: int, r: int)
    requires w > 0 && 0 <= r < w && x == w * k + r
    ensures x / w == k
  {
    var j := x / w;
    assert x == w * j + x % w;
    if j < k {
      NextMultiple(w, j, k);
    } else if k < j {
      NextMultiple(w, k, j);
    }
  }
}
