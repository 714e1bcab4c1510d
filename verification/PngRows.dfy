/**
 Scanline filters of sections 9.2 to 9.4 of the PNG specification: the filtering that an encoder
 applies, and the two reconstruction loops of the capture checks, which undo it in place.
 */
module PngRows {
  import opened Options
  import opened Bytes
  import opened PngFilters

  /** The byte one pixel to the left, or 0 in the first pixel. */
  function LeftOf(s: seq<Byte>, i: nat, channels: nat): int
    requires channels > 0 && i <= |s|
  {
    if i >= channels then s[i - channels] else 0
  }

  /** Section 9.2: each byte minus its prediction, modulo 256. */
  function Filtered(filter: int, channels: nat, row: seq<Byte>, prev: seq<Byte>): (f: seq<Byte>)
    requires channels > 0 && |prev| == |row|
    ensures |f| == |row|
  {
    seq(|row|, i requires 0 <= i < |row| =>
      (row[i] - Predict(filter, LeftOf(row, i, channels), prev[i], LeftOf(prev, i, channels))) % 256)
  }

  /** Reconstruction from left to right: each byte needs the reconstructed ones before it. */
  function Recon(filter: int, channels: nat, raw: seq<Byte>, prev: seq<Byte>): (r: seq<Byte>)
    requires channels > 0 && |prev| == |raw|
    ensures |r| == |raw|
    decreases |raw|
  {
    if raw == [] then []
    else
      var n := |raw| - 1;
      var r := Recon(filter, channels, raw[..n], prev[..n]);
      r + [(raw[n] + Predict(filter, LeftOf(r, n, channels), prev[n], LeftOf(prev, n, channels))) % 256]
  }

  lemma ReconNext(filter: int, channels: nat, raw: seq<Byte>, prev: seq<Byte>, i: nat)
    requires channels > 0 && |prev| == |raw| && i < |raw|
    ensures var r := Recon(filter, channels, raw[..i], prev[..i]);
            Recon(filter, channels, raw[..i + 1], prev[..i + 1]) ==
            r + [(raw[i] + Predict(filter, LeftOf(r, i, channels), prev[i], LeftOf(prev, i, channels))) % 256]
  {
    assert raw[..i + 1][..i] == raw[..i] && prev[..i + 1][..i] == prev[..i];
    assert LeftOf(prev[..i + 1], i, channels) == LeftOf(prev, i, channels);
  }

  lemma AddBack(x: Byte, p: int)
    ensures ((x - p) % 256 + p) % 256 == x
  {
  }

  /** Reconstruction undoes filtering, for every filter type and every row of bytes. */
  lemma {:induction false} ReconFiltered(filter: int, channels: nat, row: seq<Byte>, prev: seq<Byte>, n: nat)
    requires channels > 0 && |prev| == |row| && n <= |row|
    ensures Recon(filter, channels, Filtered(filter, channels, row, prev)[..n], prev[..n]) == row[..n]
  {
    if n > 0 {
      var i := n - 1;
      var f := Filtered(filter, channels, row, prev);
      ReconFiltered(filter, channels, row, prev, i);
      ReconNext(filter, channels, f, prev, i);
      assert LeftOf(row[..i], i, channels) == LeftOf(row, i, channels);
      AddBack(row[i], Predict(filter, LeftOf(row, i, channels), prev[i], LeftOf(prev, i, channels)));
      assert row[..n] == row[..i] + [row[i]];
    }
  }

  // ---- The two loops --------------------------------------------------------------------------------

  datatype Script = Zoom | Black

  /** One byte in the zoom script: a masked sum inside each filter's branch. */
  method ByteZoom(x: Byte, a: int, b: int, c: int, filter: int) returns (y: Byte)
    ensures y == (x + Predict(filter, a, b, c)) % 256
    ensures Restores(filter, a, b, c, x, y)
  {
    PredictRestores(filter, a, b, c, x, (x + Predict(filter, a, b, c)) % 256);
    y := x;
    if filter == 1 {
      y := (x + a) % 256;
    } else if filter == 2 {
      y := (x + b) % 256;
    } else if filter == 3 {
      y := (x + (a + b) / 2) % 256;
    } else if filter == 4 {
      var pred := a + b - c;
      var pa, pb, pc := Abs(pred - a), Abs(pred - b), Abs(pred - c);
      var best := if pa <= pb && pa <= pc then a else if pb <= pc then b else c;
      y := (x + best) % 256;
    }
  }

  /** One byte in the blackness script: the sum is collected first and masked once. */
  method ByteBlack(x: Byte, a: int, b: int, c: int, filter: int) returns (y: Byte)
    ensures y == (x + Predict(filter, a, b, c)) % 256
    ensures Restores(filter, a, b, c, x, y)
  {
    PredictRestores(filter, a, b, c, x, (x + Predict(filter, a, b, c)) % 256);
    var sum: int := x;
    if filter == 1 {
      sum := sum + a;
    } else if filter == 2 {
      sum := sum + b;
    } else if filter == 3 {
      sum := sum + (a + b) / 2;
    } else if filter == 4 {
      var p := a + b - c;
      var pa, pb, pc := Abs(p - a), Abs(p - b), Abs(p - c);
      sum := sum + if pa <= pb && pa <= pc then a else if pb <= pc then b else c;
    }
    y := sum % 256;
  }

  /** The state of a reconstruction loop: done up to `i`, raw from there on. */
  ghost predicate DoneUpTo(line: seq<Byte>, i: nat, filter: int, channels: nat, raw: seq<Byte>, prev: seq<Byte>)
    requires channels > 0
  {
    && |line| == |raw| == |prev| && i <= |raw|
    && line[..i] == Recon(filter, channels, raw[..i], prev[..i])
    && line[i..] == raw[i..]
  }

  lemma DoneNext(line: seq<Byte>, i: nat, filter: int, channels: nat, raw: seq<Byte>, prev: seq<Byte>)
    requires channels > 0 && DoneUpTo(line, i, filter, channels, raw, prev) && i < |raw|
    ensures line[i] == raw[i]
    ensures var y := (raw[i] + Predict(filter, LeftOf(line, i, channels), prev[i], LeftOf(prev, i, channels))) % 256;
            DoneUpTo(line[i := y], i + 1, filter, channels, raw, prev)
  {
    ReconNext(filter, channels, raw, prev, i);
    assert line[i] == line[i..][0] && raw[i] == raw[i..][0];
    var r := line[..i];
    assert LeftOf(r, i, channels) == LeftOf(line, i, channels);
    var y := (raw[i] + Predict(filter, LeftOf(line, i, channels), prev[i], LeftOf(prev, i, channels))) % 256;
    assert line[i := y][..i + 1] == r + [y];
    assert line[i := y][i + 1..] == line[i..][1..] && raw[i + 1..] == raw[i..][1..];
  }

  /** An accepted line: whole, or for the zoom script a short one whose missing bytes it never looks at. */
  predicate Takes(script: Script, filter: int, n: nat, stride: nat, channels: nat) {
    n == stride || (script == Zoom && !(1 <= filter <= 4) && stride <= n + channels)
  }

  /** Without a prediction reconstruction changes nothing. */
  lemma {:induction false} ReconPlain(filter: int, channels: nat, raw: seq<Byte>, prev: seq<Byte>)
    requires channels > 0 && |prev| == |raw| && !(1 <= filter <= 4)
    ensures Recon(filter, channels, raw, prev) == raw
    decreases |raw|
  {
    if raw != [] {
      var n := |raw| - 1;
      ReconPlain(filter, channels, raw[..n], prev[..n]);
      assert raw == raw[..n] + [raw[n]];
    }
  }

  /**
   The zoom script's loop over a line that may have been cut off: it reads the byte to the left at
   every index, and the byte itself only under the filters 1 to 4.  A missing byte is an error.
   */
  method ReconstructZoom(line: array<Byte>, prev: seq<Byte>, filter: int, channels: nat) returns (ok: bool)
    requires channels > 0 && line.Length <= |prev|
    modifies line
    ensures ok <==> Takes(Zoom, filter, line.Length, |prev|, channels)
    ensures ok ==> line[..] == old(Recon(filter, channels, line[..], prev[..line.Length]))
  {
    ghost var raw, above := line[..], prev[..line.Length];
    for i := 0 to |prev|
      invariant ZoomDone(line[..], i, filter, channels, raw, above)
    {
      if i >= channels && i - channels >= line.Length {
        return false;
      }
      var a := if i >= channels then line[i - channels] else 0;
      var b := prev[i];
      var c := if i >= channels then prev[i - channels] else 0;
      if 1 <= filter <= 4 {
        if i >= line.Length {
          return false;
        }
        ghost var before := line[..];
        DoneNext(before, i, filter, channels, raw, above);
        assert a == LeftOf(before, i, channels) && b == above[i] && c == LeftOf(above, i, channels);
        var y := ByteZoom(line[i], a, b, c, filter);
        line[i] := y;
        assert line[..] == before[i := y];
      } else {
        ZoomSkips(line[..], i, filter, channels, raw, above);
      }
    }
    ok := true;
    ZoomEnds(line[..], |prev|, filter, channels, raw, above);
  }

  /** The state of the zoom script's loop, which may run on behind the end of a short line. */
  ghost predicate ZoomDone(line: seq<Byte>, i: nat, filter: int, channels: nat, raw: seq<Byte>, above: seq<Byte>) {
    && channels > 0 && |line| == |raw| == |above| && i <= |raw| + channels
    && if i <= |raw| then DoneUpTo(line, i, filter, channels, raw, above) else !(1 <= filter <= 4) && line == raw
  }

  lemma ZoomSkips(line: seq<Byte>, i: nat, filter: int, channels: nat, raw: seq<Byte>, above: seq<Byte>)
    requires ZoomDone(line, i, filter, channels, raw, above) && !(1 <= filter <= 4) && i < |raw| + channels
    ensures ZoomDone(line, i + 1, filter, channels, raw, above)
  {
    if i < |raw| {
      DoneNext(line, i, filter, channels, raw, above);
      assert line[i := raw[i]] == line;
    } else if i == |raw| {
      DoneAll(line, filter, channels, raw, above);
      ReconPlain(filter, channels, raw, above);
    }
  }

  lemma ZoomEnds(line: seq<Byte>, i: nat, filter: int, channels: nat, raw: seq<Byte>, above: seq<Byte>)
    requires ZoomDone(line, i, filter, channels, raw, above) && i >= |raw|
    ensures line == Recon(filter, channels, raw, above)
  {
    if i == |raw| {
      DoneAll(line, filter, channels, raw, above);
    } else {
      ReconPlain(filter, channels, raw, above);
    }
  }

  lemma DoneAll(line: seq<Byte>, filter: int, channels: nat, raw: seq<Byte>, prev: seq<Byte>)
    requires channels > 0 && DoneUpTo(line, |raw|, filter, channels, raw, prev)
    ensures line == Recon(filter, channels, raw, prev)
  {
    assert raw[..|raw|] == raw && prev[..|raw|] == prev && line[..|raw|] == line;
  }

  /** The blackness script's loop reads every byte of the line, so a line that was cut off is an error. */
  method ReconstructBlack(line: array<Byte>, prev: seq<Byte>, filter: int, channels: nat) returns (ok: bool)
    requires channels > 0 && line.Length <= |prev|
    modifies line
    ensures ok <==> Takes(Black, filter, line.Length, |prev|, channels)
    ensures ok ==> line[..] == old(Recon(filter, channels, line[..], prev[..line.Length]))
  {
    ghost var raw, above, n := line[..], prev[..line.Length], line.Length;
    assert DoneUpTo(line[..], 0, filter, channels, raw, above);
    for i := 0 to |prev|
      invariant i <= n && DoneUpTo(line[..], i, filter, channels, raw, above)
    {
      var a := if i >= channels then line[i - channels] else 0;
      var b := prev[i];
      var c := if i >= channels then prev[i - channels] else 0;
      if i >= line.Length {
        return false;
      }
      ghost var before := line[..];
      DoneNext(before, i, filter, channels, raw, above);
      assert a == LeftOf(before, i, channels) && b == above[i] && c == LeftOf(above, i, channels);
      var y := ByteBlack(line[i], a, b, c, filter);
      line[i] := y;
      assert line[..] == before[i := y];
    }
    ok := true;
    DoneAll(line[..], filter, channels, raw, above);
  }

  // ---- Whole images ---------------------------------------------------------------------------------

  ghost predicate IsImage(rows: seq<seq<Byte>>, stride: nat) {
    forall y | 0 <= y < |rows| :: |rows[y]| == stride
  }

  /** The filtered byte stream of an image: one filter type in front of every row. */
  function FilterImage(rows: seq<seq<Byte>>, filters: seq<Byte>, channels: nat, prev: seq<Byte>): seq<Byte>
    requires channels > 0 && |filters| == |rows| && forall y | 0 <= y < |rows| :: |rows[y]| == |prev|
  {
    if rows == [] then []
    else
      [filters[0]] + Filtered(filters[0], channels, rows[0], prev)
      + FilterImage(rows[1..], filters[1..], channels, rows[0])
  }

  /** What there is of the line whose filter type stands at `pos`. */
  function LineAt(raw: seq<Byte>, pos: nat, stride: nat): (line: seq<Byte>)
    requires pos < |raw|
    ensures |line| <= stride && (|line| < stride ==> pos + 1 + stride > |raw| && |line| == |raw| - pos - 1)
  {
    Slice(raw, pos + 1, stride)
  }

  /** The `left` rows that a script makes of the stream from `pos` on, or nothing when it fails. */
  function Unfiltered(script: Script, raw: seq<Byte>, pos: nat, left: nat, stride: nat, channels: nat, prev: seq<Byte>)
    : Option<seq<seq<Byte>>>
    requires channels > 0 && (|prev| == stride || pos >= |raw|)
    decreases left
  {
    if left == 0 then Some([])
    else if pos >= |raw| then None
    else match RowAt(script, raw, pos, channels, prev)
      case None => None
      case Some(row) => Behind([row], Unfiltered(script, raw, pos + 1 + stride, left - 1, stride, channels, row))
  }

  /** The row whose filter type stands at `pos`, if the script accepts what there is of it. */
  function RowAt(script: Script, raw: seq<Byte>, pos: nat, channels: nat, prev: seq<Byte>): (row: Option<seq<Byte>>)
    requires channels > 0 && pos < |raw|
    ensures row.Some? ==> |row.value| == |LineAt(raw, pos, |prev|)|
  {
    var line := LineAt(raw, pos, |prev|);
    if Takes(script, raw[pos], |line|, |prev|, channels) then Some(Recon(raw[pos], channels, line, prev[..|line|]))
        else None
  }

  /** A whole row of a filtered image. */
  lemma ReconRow(filter: int, channels: nat, row: seq<Byte>, prev: seq<Byte>)
    requires channels > 0 && |prev| == |row|
    ensures Recon(filter, channels, Filtered(filter, channels, row, prev), prev) == row
  {
    var n := |row|;
    var f := Filtered(filter, channels, row, prev);
    assert f[..n] == f && prev[..n] == prev && row[..n] == row;
    ReconFiltered(filter, channels, row, prev, n);
  }

  // ---- What a row means -----------------------------------------------------------------------------

  /** Byte `i` of `r` is restored from the raw byte, the row itself and the row above. */
  ghost predicate ByteRestored(filter: int, channels: nat, raw: seq<Byte>, above: seq<Byte>, r: seq<Byte>, i: nat)
    requires |above| == |raw| == |r| && i < |r|
  {
    if i >= channels then Restores(filter, r[i - channels], above[i], above[i - channels], raw[i], r[i])
    else Restores(filter, 0, above[i], 0, raw[i], r[i])
  }

  ghost predicate RowRestored(filter: int, channels: nat, raw: seq<Byte>, above: seq<Byte>, r: seq<Byte>)
    requires |above| == |raw|
  {
    |r| == |raw| && forall i | 0 <= i < |r| :: ByteRestored(filter, channels, raw, above, r, i)
  }

  lemma {:induction false} RestoredFront(filter: int, channels: nat, raw: seq<Byte>, above: seq<Byte>, r: seq<Byte>,
                                         n: nat)
    requires channels > 0 && |above| == |raw| == |r| == n + 1
    ensures RowRestored(filter, channels, raw, above, r) <==>
            && RowRestored(filter, channels, raw[..n], above[..n], r[..n])
            && ByteRestored(filter, channels, raw, above, r, n)
  {
    assert forall i | 0 <= i < n :: ByteRestored(filter, channels, raw[..n], above[..n], r[..n], i) <==>
                                    ByteRestored(filter, channels, raw, above, r, i);
  }

  /** Reconstruction gives the one row that is restored throughout. */
  lemma {:induction false} ReconRestores(filter: int, channels: nat, raw: seq<Byte>, above: seq<Byte>, r: seq<Byte>)
    requires channels > 0 && |above| == |raw|
    ensures r == Recon(filter, channels, raw, above) <==> RowRestored(filter, channels, raw, above, r)
    decreases |raw|
  {
    if raw != [] && |r| == |raw| {
      var n := |raw| - 1;
      var front := Recon(filter, channels, raw[..n], above[..n]);
      ReconRestores(filter, channels, raw[..n], above[..n], r[..n]);
      RestoredFront(filter, channels, raw, above, r, n);
      assert r == r[..n] + [r[n]];
      assert r[..n] == front ==> LeftOf(r, n, channels) == LeftOf(front, n, channels);
      PredictRestores(filter, LeftOf(r, n, channels), above[n], LeftOf(above, n, channels), raw[n], r[n]);
      if r[..n] == front {
        assert r == Recon(filter, channels, raw, above) <==>
            r[n] == (raw[n] + Predict(filter, LeftOf(r, n, channels), above[n], LeftOf(above, n, channels))) % 256;
      }
    }
  }

  /** The raw bytes of one channel, added up to byte `i`. */
  ghost function ChannelSum(raw: seq<Byte>, channels: nat, i: nat): nat
    requires channels > 0 && i < |raw|
  {
    raw[i] + if i >= channels then ChannelSum(raw, channels, i - channels) else 0
  }

  lemma ModSum(x: int, y: int)
    ensures (x + y % 256) % 256 == (x + y) % 256
  {
  }

  /** Under filter type 1 a byte is the sum of the raw bytes of its channel so far, modulo 256. */
  lemma {:induction false} SubSums(channels: nat, raw: seq<Byte>, above: seq<Byte>, i: nat)
    requires channels > 0 && |above| == |raw| && i < |raw|
    ensures Recon(1, channels, raw, above)[i] == ChannelSum(raw, channels, i) % 256
  {
    var r := Recon(1, channels, raw, above);
    ReconRestores(1, channels, raw, above, r);
    assert ByteRestored(1, channels, raw, above, r, i);
    if i >= channels {
      SubSums(channels, raw, above, i - channels);
      ModSum(raw[i], ChannelSum(raw, channels, i - channels));
    }
  }

  /** A whole line that stands in a stream. */
  lemma LineThere(raw: seq<Byte>, pos: nat, filter: Byte, f: seq<Byte>)
    requires At(raw, pos, [filter] + f)
    ensures pos < |raw| && raw[pos] == filter && LineAt(raw, pos, |f|) == f
  {
    AtParts(raw, pos, [filter], f);
    SliceThere(raw, pos + 1, f);
  }

  /** A filtered row in a stream is read back. */
  lemma {:induction false} RowThere(script: Script, raw: seq<Byte>, pos: nat, filter: Byte, row: seq<Byte>,
      channels: nat, prev: seq<Byte>)
    requires channels > 0 && |row| == |prev|
    requires At(raw, pos, [filter] + Filtered(filter, channels, row, prev))
    ensures pos < |raw| && RowAt(script, raw, pos, channels, prev) == Some(row)
  {
    var f := Filtered(filter, channels, row, prev);
    assert LineAt(raw, pos, |prev|) == f && raw[pos] == filter by {
      LineThere(raw, pos, filter, f);
    }
    assert prev[..|f|] == prev;
    ReconRow(filter, channels, row, prev);
  }

  lemma {:induction false} UnfilteredNext(script: Script, raw: seq<Byte>, pos: nat, left: nat, stride: nat,
      channels: nat, prev: seq<Byte>, row: seq<Byte>)
    requires channels > 0 && pos < |raw| && |prev| == stride && left > 0
    requires RowAt(script, raw, pos, channels, prev) == Some(row)
    ensures Unfiltered(script, raw, pos, left, stride, channels, prev) ==
            Behind([row], Unfiltered(script, raw, pos + 1 + stride, left - 1, stride, channels, row))
  {
  }

  /** The filtered rows stand in the stream one behind the other. */
  ghost predicate RowsThere(raw: seq<Byte>, pos: nat, rows: seq<seq<Byte>>, filters: seq<Byte>, channels: nat,
                            prev: seq<Byte>)
    requires channels > 0 && |filters| == |rows| && IsImage(rows, |prev|)
    decreases |rows|
  {
    rows == [] ||
    (At(raw, pos, [filters[0]] + Filtered(filters[0], channels, rows[0], prev)) &&
     RowsThere(raw, pos + 1 + |prev|, rows[1..], filters[1..], channels, rows[0]))
  }

  lemma {:induction false} FilteredThere(raw: seq<Byte>, pos: nat, rows: seq<seq<Byte>>, filters: seq<Byte>,
      channels: nat, prev: seq<Byte>)
    requires channels > 0 && |filters| == |rows| && IsImage(rows, |prev|)
    requires At(raw, pos, FilterImage(rows, filters, channels, prev))
    ensures RowsThere(raw, pos, rows, filters, channels, prev)
    decreases |rows|
  {
    if rows != [] {
      var line := [filters[0]] + Filtered(filters[0], channels, rows[0], prev);
      AtParts(raw, pos, line, FilterImage(rows[1..], filters[1..], channels, rows[0]));
      FilteredThere(raw, pos + |line|, rows[1..], filters[1..], channels, rows[0]);
    }
  }

  lemma {:induction false} UnfilterStep(script: Script, raw: seq<Byte>, pos: nat, row: seq<Byte>, filter: Byte,
      left: nat, channels: nat, prev: seq<Byte>)
    requires channels > 0 && |row| == |prev| && left > 0
    requires At(raw, pos, [filter] + Filtered(filter, channels, row, prev))
    ensures pos < |raw|
    ensures Unfiltered(script, raw, pos, left, |prev|, channels, prev) ==
            Behind([row], Unfiltered(script, raw, pos + 1 + |prev|, left - 1, |prev|, channels, row))
  {
    RowThere(script, raw, pos, filter, row, channels, prev);
    UnfilteredNext(script, raw, pos, left, |prev|, channels, prev, row);
  }

  lemma {:induction false} UnfilterRows(script: Script, raw: seq<Byte>, pos: nat, rows: seq<seq<Byte>>,
                                        filters: seq<Byte>, channels: nat, prev: seq<Byte>)
    requires channels > 0 && |filters| == |rows| && IsImage(rows, |prev|)
    requires RowsThere(raw, pos, rows, filters, channels, prev)
    ensures Unfiltered(script, raw, pos, |rows|, |prev|, channels, prev) == Some(rows)
    decreases |rows|
  {
    if rows != [] {
      UnfilterStep(script, raw, pos, rows[0], filters[0], |rows|, channels, prev);
      UnfilterRows(script, raw, pos + 1 + |prev|, rows[1..], filters[1..], channels, rows[0]);
      assert rows == [rows[0]] + rows[1..];
    }
  }

  /** Every image, filtered row by row in any way, is read back from where it stands, by both scripts. */
  lemma {:induction false} UnfilterImage(script: Script, raw: seq<Byte>, pos: nat, rows: seq<seq<Byte>>,
                                         filters: seq<Byte>, channels: nat, prev: seq<Byte>)
    requires channels > 0 && |filters| == |rows| && IsImage(rows, |prev|)
    requires At(raw, pos, FilterImage(rows, filters, channels, prev))
    ensures Unfiltered(script, raw, pos, |rows|, |prev|, channels, prev) == Some(rows)
  {
    FilteredThere(raw, pos, rows, filters, channels, prev);
    UnfilterRows(script, raw, pos, rows, filters, channels, prev);
  }

  /** The rows above: the row before, or the initial one. */
  function Above(rows: seq<seq<Byte>>, y: nat, prev: seq<Byte>): seq<Byte>
    requires y <= |rows|
  {
    if y == 0 then prev else rows[y - 1]
  }

  /** Row `y` is restored from the line at `at`, as the filter type in front of the line says. */
  ghost predicate RestoredAt(raw: seq<Byte>, at: nat, stride: nat, channels: nat, above: seq<Byte>, row: seq<Byte>) {
    && at < |raw| && var line := Slice(raw, at + 1, stride);
       |line| <= |above| && RowRestored(raw[at], channels, line, above[..|line|], row)
  }

  lemma {:induction false} RowAtRestores(script: Script, raw: seq<Byte>, pos: nat, channels: nat, prev: seq<Byte>,
                                         row: seq<Byte>)
    requires channels > 0 && pos < |raw| && RowAt(script, raw, pos, channels, prev) == Some(row)
    ensures RestoredAt(raw, pos, |prev|, channels, prev, row)
  {
    var line := LineAt(raw, pos, |prev|);
    ReconRestores(raw[pos], channels, line, prev[..|line|], row);
  }

  lemma {:induction false} FirstRow(script: Script, raw: seq<Byte>, pos: nat, left: nat, stride: nat, channels: nat,
                                    prev: seq<Byte>, rows: seq<seq<Byte>>)
    requires channels > 0 && (|prev| == stride || pos >= |raw|) && left > 0
    requires Unfiltered(script, raw, pos, left, stride, channels, prev) == Some(rows)
    ensures pos < |raw| && |rows| > 0 && RowAt(script, raw, pos, channels, prev) == Some(rows[0])
    ensures |rows[0]| == stride || pos + 1 + stride >= |raw|
    ensures Unfiltered(script, raw, pos + 1 + stride, left - 1, stride, channels, rows[0]) == Some(rows[1..])
  {
  }

  /** Every row that a script makes of a stream is restored from its own line and the row above it. */
  lemma {:induction false} RowsRestored(script: Script, raw: seq<Byte>, pos: nat, left: nat, stride: nat,
                                        channels: nat, prev: seq<Byte>, rows: seq<seq<Byte>>, y: nat)
    requires channels > 0 && (|prev| == stride || pos >= |raw|) && y < left
    requires Unfiltered(script, raw, pos, left, stride, channels, prev) == Some(rows)
    ensures y < |rows| && RestoredAt(raw, pos + y * (stride + 1), stride, channels, Above(rows, y, prev), rows[y])
    decreases left
  {
    FirstRow(script, raw, pos, left, stride, channels, prev, rows);
    if y == 0 {
      RowAtRestores(script, raw, pos, channels, prev, rows[0]);
    } else {
      RowsRestored(script, raw, pos + 1 + stride, left - 1, stride, channels, rows[0], rows[1..], y - 1);
      NextLine(pos, y, stride);
      assert Above(rows, y, prev) == Above(rows[1..], y - 1, rows[0]);
    }
  }

  lemma NextLine(pos: nat, y: nat, stride: nat)
    requires y > 0
    ensures pos + 1 + stride + (y - 1) * (stride + 1) == pos + y * (stride + 1)
  {
  }

  function Flatten(rows: seq<seq<Byte>>): seq<Byte> {
    if rows == [] then [] else rows[0] + Flatten(rows[1..])
  }

  lemma {:induction false} FlattenPush(rows: seq<seq<Byte>>, row: seq<Byte>)
    ensures Flatten(rows + [row]) == Flatten(rows) + row
  {
    if rows == [] {
      assert rows + [row] == [row] && [row][1..] == [];
    } else {
      FlattenPush(rows[1..], row);
      assert (rows + [row])[1..] == rows[1..] + [row];
    }
  }

  lemma {:induction false} FlattenLength(rows: seq<seq<Byte>>, stride: nat)
    requires forall k | 0 <= k < |rows| :: |rows[k]| == stride
    ensures |Flatten(rows)| == |rows| * stride
    decreases |rows|
  {
    if rows != [] {
      FlattenLength(rows[1..], stride);
      assert |rows| * stride == stride + (|rows| - 1) * stride;
    }
  }

  /** Where byte `i` of row `y` stands in the flat pixel buffer. */
  lemma {:induction false} FlattenAt(rows: seq<seq<Byte>>, stride: nat, y: nat, i: nat)
    requires (forall k | 0 <= k < |rows| :: |rows[k]| == stride) && y < |rows| && i < stride
    ensures 0 <= y * stride + i < |Flatten(rows)| && Flatten(rows)[y * stride + i] == rows[y][i]
    decreases |rows|
  {
    if y > 0 {
      FlattenAt(rows[1..], stride, y - 1, i);
      assert y * stride == stride + (y - 1) * stride;
    }
  }

  // ---- The row loops --------------------------------------------------------------------------------

  /** `rows` have been read, and what is left from `pos` on makes up the rest of `all`. */
  ghost predicate Remaining(script: Script, all: Option<seq<seq<Byte>>>, rows: seq<seq<Byte>>, pixels: seq<Byte>,
                            raw: seq<Byte>, pos: nat, left: nat, stride: nat, channels: nat, prev: seq<Byte>)
  {
    && channels > 0 && (|prev| == stride || pos >= |raw|) && pixels == Flatten(rows)
    && all == Behind(rows, Unfiltered(script, raw, pos, left, stride, channels, prev))
  }

  /** One row more, or the failure of the whole. */
  lemma RowStep(script: Script, all: Option<seq<seq<Byte>>>, rows: seq<seq<Byte>>, pixels: seq<Byte>, raw: seq<Byte>,
                pos: nat, left: nat, stride: nat, channels: nat, prev: seq<Byte>, row: Option<seq<Byte>>)
    requires Remaining(script, all, rows, pixels, raw, pos, left, stride, channels, prev) && left > 0
    requires row == if pos < |raw| then RowAt(script, raw, pos, channels, prev) else None
    ensures row.None? ==> all == None
    ensures row.Some? ==>
            Remaining(script, all, rows + [row.value], pixels + row.value, raw, pos + 1 + stride, left - 1,
                                    stride, channels, row.value)
  {
    if row.Some? {
      BehindStep(rows, row.value, Unfiltered(script, raw, pos + 1 + stride, left - 1, stride, channels, row.value));
      FlattenPush(rows, row.value);
    }
  }

  lemma RowsEnd(script: Script, all: Option<seq<seq<Byte>>>, rows: seq<seq<Byte>>, pixels: seq<Byte>, raw: seq<Byte>,
                pos: nat, stride: nat, channels: nat, prev: seq<Byte>)
    requires Remaining(script, all, rows, pixels, raw, pos, 0, stride, channels, prev)
    ensures Pixels(all) == Some(pixels)
  {
    assert rows + [] == rows;
  }

  function Pixels(rows: Option<seq<seq<Byte>>>): Option<seq<Byte>> {
    if rows.None? then None else Some(Flatten(rows.value))
  }

  /** One line of the zoom script, cut off where the stream ends. */
  method ReadRowZoom(raw: seq<Byte>, pos: nat, prev: seq<Byte>, channels: nat) returns (row: Option<seq<Byte>>)
    requires channels > 0
    ensures row == if pos < |raw| then RowAt(Zoom, raw, pos, channels, prev) else None
  {
    if pos >= |raw| {
      return None;
    }
    var bytes := LineAt(raw, pos, |prev|);
    var line := new Byte[|bytes|](i requires 0 <= i < |bytes| => bytes[i]);
    assert line[..] == bytes;
    var ok := ReconstructZoom(line, prev, raw[pos], channels);
    row := if ok then Some(line[..]) else None;
  }

  method ReadRowBlack(raw: seq<Byte>, pos: nat, prev: seq<Byte>, channels: nat) returns (row: Option<seq<Byte>>)
    requires channels > 0
    ensures row == if pos < |raw| then RowAt(Black, raw, pos, channels, prev) else None
  {
    if pos >= |raw| {
      return None;
    }
    var bytes := LineAt(raw, pos, |prev|);
    var line := new Byte[|bytes|](i requires 0 <= i < |bytes| => bytes[i]);
    assert line[..] == bytes;
    var ok := ReconstructBlack(line, prev, raw[pos], channels);
    row := if ok then Some(line[..]) else None;
  }

  /** The zoom script's row loop: a fresh line per row, and the line becomes the previous one. */
  method ReadRowsZoom(raw: seq<Byte>, height: nat, stride: nat, channels: nat) returns (out: Option<seq<Byte>>)
    requires channels > 0
    ensures out == Pixels(Unfiltered(Zoom, raw, 0, height, stride, channels, Zeros(stride)))
  {
    var prev, pixels := Zeros(stride), [];
    var pos: nat := 0;
    ghost var rows: seq<seq<Byte>> := [];
    ghost var all := Unfiltered(Zoom, raw, 0, height, stride, channels, prev);
    BehindNothing(all);
    for y := 0 to height
      invariant Remaining(Zoom, all, rows, pixels, raw, pos, height - y, stride, channels, prev)
    {
      var row := ReadRowZoom(raw, pos, prev, channels);
      RowStep(Zoom, all, rows, pixels, raw, pos, height - y, stride, channels, prev, row);
      if row.None? {
        return None;
      }
      pos, pixels, prev := pos + 1 + stride, pixels + row.value, row.value;
      rows := rows + [prev];
      assert Remaining(Zoom, all, rows, pixels, raw, pos, height - y - 1, stride, channels, prev);
    }
    RowsEnd(Zoom, all, rows, pixels, raw, pos, stride, channels, prev);
    out := Some(pixels);
  }

  /** The blackness script's row loop. */
  method ReadRowsBlack(raw: seq<Byte>, height: nat, stride: nat, channels: nat) returns (out: Option<seq<Byte>>)
    requires channels > 0
    ensures out == Pixels(Unfiltered(Black, raw, 0, height, stride, channels, Zeros(stride)))
  {
    var prev, pixels := Zeros(stride), [];
    var pos: nat := 0;
    ghost var rows: seq<seq<Byte>> := [];
    ghost var all := Unfiltered(Black, raw, 0, height, stride, channels, prev);
    BehindNothing(all);
    for y := 0 to height
      invariant Remaining(Black, all, rows, pixels, raw, pos, height - y, stride, channels, prev)
    {
      var row := ReadRowBlack(raw, pos, prev, channels);
      RowStep(Black, all, rows, pixels, raw, pos, height - y, stride, channels, prev, row);
      if row.None? {
        return None;
      }
      pos, pixels, prev := pos + 1 + stride, pixels + row.value, row.value;
      rows := rows + [prev];
      assert Remaining(Black, all, rows, pixels, raw, pos, height - y - 1, stride, channels, prev);
    }
    RowsEnd(Black, all, rows, pixels, raw, pos, stride, channels, prev);
    out := Some(pixels);
  }

  function Zeros(n: nat): seq<Byte> { seq(n, _ => 0) }

  lemma BehindStep(rows: seq<seq<Byte>>, row: seq<Byte>, more: Option<seq<seq<Byte>>>)
    ensures Behind(rows, Behind([row], more)) == Behind(rows + [row], more)
  {
    if more.Some? {
      assert rows + ([row] + more.value) == (rows + [row]) + more.value;
    }
  }

  // ---- Where the two scripts differ -----------------------------------------------------------------

  /** Where the last of `left` rows begins. */
  function LastAt(pos: nat, left: nat, stride: nat): nat
    requires left > 0
  {
    pos + (left - 1) * (stride + 1)
  }

  /** The stream ends inside the last row, at most `channels` bytes short, and that row has no prediction. */
  predicate ShortTail(raw: seq<Byte>, pos: nat, left: nat, stride: nat, channels: nat) {
    && left > 0
    && var last := LastAt(pos, left, stride);
       last < |raw| < last + 1 + stride <= |raw| + channels && !(1 <= raw[last] <= 4)
  }

  lemma LastLater(pos: nat, left: nat, stride: nat)
    requires left > 1
    ensures LastAt(pos + 1 + stride, left - 1, stride) == LastAt(pos, left, stride) >= pos + 1 + stride
  {
    assert (left - 1) * (stride + 1) == (left - 2) * (stride + 1) + (stride + 1);
    assert (left - 2) * (stride + 1) >= 0;
  }

  /** The row at `pos` is accepted: whole, or at the end of the stream and not missed by the zoom script. */
  predicate RowTaken(script: Script, raw: seq<Byte>, pos: nat, stride: nat, channels: nat) {
    && pos < |raw|
    && (pos + 1 + stride <= |raw| ||
        (script == Zoom && pos + 1 + stride <= |raw| + channels && !(1 <= raw[pos] <= 4)))
  }

  /** Every row is accepted. */
  predicate Accepts(script: Script, raw: seq<Byte>, pos: nat, left: nat, stride: nat, channels: nat)
    decreases left
  {
    left == 0 ||
    (RowTaken(script, raw, pos, stride, channels) && Accepts(script, raw, pos + 1 + stride, left - 1, stride, channels))
  }

  lemma {:induction false} UnfilteredAccepts(script: Script, raw: seq<Byte>, pos: nat, left: nat, stride: nat,
                                             channels: nat, prev: seq<Byte>)
    requires channels > 0 && (|prev| == stride || pos >= |raw|)
    ensures Unfiltered(script, raw, pos, left, stride, channels, prev).Some? <==>
            Accepts(script, raw, pos, left, stride, channels)
    decreases left
  {
    if left > 0 && pos < |raw| {
      var row := RowAt(script, raw, pos, channels, prev);
      assert row.Some? <==> RowTaken(script, raw, pos, stride, channels);
      if row.Some? {
        UnfilteredAccepts(script, raw, pos + 1 + stride, left - 1, stride, channels, row.value);
      }
    }
  }

  /** All `left` rows stand in the stream. */
  predicate AllThere(raw: seq<Byte>, pos: nat, left: nat, stride: nat) {
    left == 0 || LastAt(pos, left, stride) + 1 + stride <= |raw|
  }

  lemma AllThereStep(raw: seq<Byte>, pos: nat, left: nat, stride: nat, channels: nat)
    requires left > 0
    ensures AllThere(raw, pos, left, stride) <==>
            pos + 1 + stride <= |raw| && AllThere(raw, pos + 1 + stride, left - 1, stride)
    ensures ShortTail(raw, pos, left, stride, channels) <==>
            if left > 1 then ShortTail(raw, pos + 1 + stride, left - 1, stride, channels)
            else pos < |raw| < pos + 1 + stride <= |raw| + channels && !(1 <= raw[pos] <= 4)
    ensures left > 1 && ShortTail(raw, pos, left, stride, channels) ==> pos + 1 + stride < |raw|
  {
    if left > 1 {
      LastLater(pos, left, stride);
    }
  }

  /** The blackness script accepts exactly the streams that hold all rows. */
  lemma {:induction false} BlackAccepts(raw: seq<Byte>, pos: nat, left: nat, stride: nat, channels: nat)
    ensures Accepts(Black, raw, pos, left, stride, channels) <==> AllThere(raw, pos, left, stride)
    decreases left
  {
    if left > 0 {
      AllThereStep(raw, pos, left, stride, channels);
      BlackAccepts(raw, pos + 1 + stride, left - 1, stride, channels);
    }
  }

  /** The zoom script accepts exactly those streams and the ones with a short tail. */
  lemma {:induction false} ZoomAccepts(raw: seq<Byte>, pos: nat, left: nat, stride: nat, channels: nat)
    ensures Accepts(Zoom, raw, pos, left, stride, channels) <==>
            AllThere(raw, pos, left, stride) || ShortTail(raw, pos, left, stride, channels)
    decreases left
  {
    if left > 0 {
      AllThereStep(raw, pos, left, stride, channels);
      ZoomAccepts(raw, pos + 1 + stride, left - 1, stride, channels);
    }
  }

  /** On every stream that both accept the scripts make the same rows. */
  lemma {:induction false} SameRows(raw: seq<Byte>, pos: nat, left: nat, stride: nat, channels: nat, prev: seq<Byte>)
    requires channels > 0 && (|prev| == stride || pos >= |raw|)
    requires Unfiltered(Black, raw, pos, left, stride, channels, prev).Some?
    ensures Unfiltered(Zoom, raw, pos, left, stride, channels, prev) ==
            Unfiltered(Black, raw, pos, left, stride, channels, prev)
    decreases left
  {
    if left > 0 {
      var row := RowAt(Black, raw, pos, channels, prev).value;
      assert RowAt(Zoom, raw, pos, channels, prev) == Some(row);
      SameRows(raw, pos + 1 + stride, left - 1, stride, channels, row);
    }
  }

  lemma TailIsShort(raw: seq<Byte>, height: nat, stride: nat, channels: nat)
    ensures !(AllThere(raw, 0, height, stride) && ShortTail(raw, 0, height, stride, channels))
  {
  }

  /** Only the zoom script accepts a stream if and only if it has a short tail. */
  lemma OnlyZoomAccepts(raw: seq<Byte>, height: nat, stride: nat, channels: nat)
    requires channels > 0
    ensures Unfiltered(Black, raw, 0, height, stride, channels, Zeros(stride)).Some? ==>
            Unfiltered(Zoom, raw, 0, height, stride, channels, Zeros(stride)).Some?
    ensures Unfiltered(Zoom, raw, 0, height, stride, channels, Zeros(stride)).Some? &&
            Unfiltered(Black, raw, 0, height, stride, channels, Zeros(stride)).None? <==>
            ShortTail(raw, 0, height, stride, channels)
  {
    BlackAccepts(raw, 0, height, stride, channels);
    ZoomAccepts(raw, 0, height, stride, channels);
    UnfilteredAccepts(Black, raw, 0, height, stride, channels, Zeros(stride));
    UnfilteredAccepts(Zoom, raw, 0, height, stride, channels, Zeros(stride));
    TailIsShort(raw, height, stride, channels);
  }

  /** One grey pixel whose stream is only a filter type: an empty row in one script, an error in the other. */
  lemma ShortTailExample()
    ensures Unfiltered(Zoom, [0], 0, 1, 1, 1, Zeros(1)) == Some([[]])
    ensures Unfiltered(Black, [0], 0, 1, 1, 1, Zeros(1)) == None
  {
    var raw: seq<Byte> := [0];
    assert LineAt(raw, 0, 1) == [] && Zeros(1)[..0] == [];
    assert Recon(0, 1, [], []) == [];
    assert Unfiltered(Zoom, raw, 2, 0, 1, 1, []) == Some([]);
    assert Takes(Zoom, 0, 0, 1, 1) && !Takes(Black, 0, 0, 1, 1);
    assert RowAt(Zoom, raw, 0, 1, Zeros(1)) == Some([]);
    var row: seq<Byte> := [];
    assert [row] + [] == [row];
  }

  /** How many bytes the stream is short of its rows. */
  function Lacking(raw: seq<Byte>, pos: nat, left: nat, stride: nat): nat {
    if AllThere(raw, pos, left, stride) then 0 else LastAt(pos, left, stride) + 1 + stride - |raw|
  }

  /** The rows hold all their bytes but those that the stream lacks. */
  lemma {:induction false} UnfilteredSize(script: Script, raw: seq<Byte>, pos: nat, left: nat, stride: nat,
      channels: nat, prev: seq<Byte>)
    requires channels > 0 && (|prev| == stride || pos >= |raw|)
    requires Unfiltered(script, raw, pos, left, stride, channels, prev).Some?
    ensures var rows := Unfiltered(script, raw, pos, left, stride, channels, prev).value;
            |rows| == left && |Flatten(rows)| == left * stride - Lacking(raw, pos, left, stride)
    decreases left
  {
    if left > 0 {
      var row := RowAt(script, raw, pos, channels, prev).value;
      var next := pos + 1 + stride;
      UnfilteredSize(script, raw, next, left - 1, stride, channels, row);
      var rest := Unfiltered(script, raw, next, left - 1, stride, channels, row).value;
      FlattenStep(row, rest);
      LackingStep(raw, pos, left, stride, |row|);
      TimesStep(left, stride);
      if left > 1 && |row| < stride {
        assert false;
      }
    }
  }

  lemma TimesStep(left: nat, stride: nat)
    requires left > 0
    ensures left * stride == stride + (left - 1) * stride
  {
  }

  lemma FlattenStep(row: seq<Byte>, rest: seq<seq<Byte>>)
    ensures |Flatten([row] + rest)| == |row| + |Flatten(rest)|
  {
    assert ([row] + rest)[1..] == rest;
  }

  /** A row that is cut off is the last one. */
  lemma LackingStep(raw: seq<Byte>, pos: nat, left: nat, stride: nat, n: nat)
    requires left > 0 && pos < |raw| && n == |LineAt(raw, pos, stride)|
    ensures n == stride ==> Lacking(raw, pos, left, stride) == Lacking(raw, pos + 1 + stride, left - 1, stride)
    ensures n < stride && left == 1 ==> Lacking(raw, pos, left, stride) == stride - n
  {
    if left > 1 {
      LastLater(pos, left, stride);
    }
  }
}
