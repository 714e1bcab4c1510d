/**
 What each scanline filter adds to a byte: the prediction that the scripts compute, and the meaning that
 sections 9.2 and 9.4 of the PNG specification give it.
 */
module PngFilters {
  import opened Bytes

  function Abs(x: int): nat { if x < 0 then -x else x }

  /** The neighbour that `a + b - c` is closest to, ties going to `a` and then to `b`. */
  function Paeth(a: int, b: int, c: int): int {
    var p := a + b - c;
    var pa, pb, pc := Abs(p - a), Abs(p - b), Abs(p - c);
    if pa <= pb && pa <= pc then a else if pb <= pc then b else c
  }

  /** The prediction from the left, upper and upper left neighbours; other filter types predict 0. */
  function Predict(filter: int, a: int, b: int, c: int): int {
    if filter == 1 then a
    else if filter == 2 then b
    else if filter == 3 then (a + b) / 2
    else if filter == 4 then Paeth(a, b, c)
    else 0
  }

  // ---- Meaning --------------------------------------------------------------------------------------

  function Gap(x: int, y: int): nat { if x <= y then y - x else x - y }

  /** The mean of two bytes, rounded down. */
  ghost predicate IsMean(m: int, a: int, b: int) { 2 * m <= a + b <= 2 * m + 1 }

  /** A neighbour that none is nearer than, with ties resolved in the order left, above, upper left. */
  ghost predicate IsNearest(n: int, a: int, b: int, c: int) {
    var p := a + b - c;
    && n in {a, b, c} && (forall m | m in {a, b, c} :: Gap(p, n) <= Gap(p, m))
    && (n != a ==> Gap(p, n) < Gap(p, a)) && (n !in {a, b} ==> Gap(p, n) < Gap(p, b))
  }

  /** What a filter type adds to a byte with the neighbours `a` (left), `b` (above) and `c` (upper left). */
  ghost predicate Adds(filter: int, a: int, b: int, c: int, n: int) {
    match filter
    case 1 => n == a
    case 2 => n == b
    case 3 => IsMean(n, a, b)
    case 4 => IsNearest(n, a, b, c)
    case _ => n == 0
  }

  /** The byte `y` is what the filter makes of `x`. */
  ghost predicate Restores(filter: int, a: int, b: int, c: int, x: Byte, y: Byte) {
    exists n :: Adds(filter, a, b, c, n) && y == (x + n) % 256
  }

  /** The nearest neighbour is what the Paeth predictor selects, and nothing else is. */
  lemma PaethIsNearest(a: int, b: int, c: int, n: int)
    ensures IsNearest(n, a, b, c) <==> n == Paeth(a, b, c)
  {
    var p, m := a + b - c, Paeth(a, b, c);
    assert Gap(p, m) <= Gap(p, a) && Gap(p, m) <= Gap(p, b) && Gap(p, m) <= Gap(p, c);
    if IsNearest(n, a, b, c) {
      assert Gap(p, n) <= Gap(p, m);
    }
  }

  /** The prediction is the one number that the filter adds. */
  lemma PredictIsAdded(filter: int, a: int, b: int, c: int, n: int)
    ensures Adds(filter, a, b, c, n) <==> n == Predict(filter, a, b, c)
  {
    if filter == 4 {
      PaethIsNearest(a, b, c, n);
    }
  }

  lemma PredictRestores(filter: int, a: int, b: int, c: int, x: Byte, y: Byte)
    ensures Restores(filter, a, b, c, x, y) <==> y == (x + Predict(filter, a, b, c)) % 256
  {
    PredictIsAdded(filter, a, b, c, Predict(filter, a, b, c));
    if Restores(filter, a, b, c, x, y) {
      var n :| Adds(filter, a, b, c, n) && y == (x + n) % 256;
      PredictIsAdded(filter, a, b, c, n);
    }
  }
}
