/** `land_runs` of scripts/gen_dashboard_gz.py: a bitmap as horizontal runs of set bits. */
module LandRuns {
  import Bits

  /** A packed bitmap, eight pixels to an octet, the low bit first, rows joined without padding. */
  datatype Bitmap = Bitmap(width: nat, height: nat, octets: seq<bv8>)

  /** One item the generator yields. */
  datatype Run = Run(y: nat, start: nat, len: nat)

  /** There is a bit for every pixel; without it the script stops with an IndexError. */
  predicate Complete(m: Bitmap)
  {
    m.width * m.height <= 8 * |m.octets|
  }

  lemma PixelHasBit(m: Bitmap, x: nat, y: nat)
    requires Complete(m) && x < m.width && y < m.height
    ensures (y * m.width + x) / 8 < |m.octets|
  {
    assert (y + 1) * m.width <= m.height * m.width;
    assert y * m.width + x < 8 * |m.octets|;
  }

  predicate Inside(m: Bitmap, x: int, y: int)
  {
    0 <= x < m.width && 0 <= y < m.height
  }

  /** The pixel is land. */
  predicate Land(m: Bitmap, x: int, y: int)
    requires Complete(m) && Inside(m, x, y)
  {
    PixelHasBit(m, x, y);
    var idx := y * m.width + x;
    (m.octets[idx / 8] >> (idx % 8)) & 1 != 0
  }

  /** The pixel is the bit of its octet at the position its number names, the low bit first. */
  lemma LandIsBit(m: Bitmap, x: int, y: int)
    requires Complete(m) && Inside(m, x, y)
    ensures var k := y * m.width + x;
            0 <= k / 8 < |m.octets| && Land(m, x, y) == Bits.ReadBit(m.octets[k / 8], k % 8 + 1)
  {
    PixelHasBit(m, x, y);
    var k := y * m.width + x;
    assert 0 <= k;
    BitAt(m.octets[k / 8], k % 8);
  }

  lemma BitAt(b: bv8, n: nat)
    requires n < 8
    ensures (b >> n) & 1 != 0 <==> Bits.ReadBit(b, n + 1)
  {
    if
    case n == 0 => case n == 1 => case n == 2 => case n == 3 =>
    case n == 4 => case n == 5 => case n == 6 => case n == 7 =>
  }

  predicate Covers(r: Run, x: int, y: int)
  {
    r.y == y && r.start <= x < r.start + r.len
  }

  /** Painting the runs sets the pixel. */
  predicate Painted(runs: seq<Run>, x: int, y: int)
  {
    exists k :: 0 <= k < |runs| && Covers(runs[k], x, y)
  }

  /** The pixel lies in the bitmap and is land. */
  predicate IsLand(m: Bitmap, x: int, y: int)
    requires Complete(m)
  {
    Inside(m, x, y) && Land(m, x, y)
  }

  /** A run is a nonempty stretch of land that cannot be made longer on either side. */
  ghost predicate Maximal(m: Bitmap, r: Run)
    requires Complete(m)
  {
    && r.len > 0
    && (forall x :: r.start <= x < r.start + r.len ==> IsLand(m, x, r.y))
    && !IsLand(m, r.start - 1, r.y)
    && !IsLand(m, r.start + r.len, r.y)
  }

  /** In row-major order, and apart. */
  predicate Before(a: Run, b: Run)
  {
    a.y < b.y || (a.y == b.y && a.start + a.len < b.start)
  }

  /** What the runs of a bitmap are. */
  ghost predicate RunsOf(m: Bitmap, runs: seq<Run>)
    requires Complete(m)
  {
    && (forall k :: 0 <= k < |runs| ==> Maximal(m, runs[k]))
    && (forall i, j :: 0 <= i < j < |runs| ==> Before(runs[i], runs[j]))
    && (forall x, y :: Painted(runs, x, y) <==> IsLand(m, x, y))
  }

  /** Runs found while the scan stands at `(x, y)`: those of the pixels before it. */
  ghost predicate RunsBefore(m: Bitmap, runs: seq<Run>, x: int, y: int)
    requires Complete(m)
  {
    && (forall k :: 0 <= k < |runs| ==> Maximal(m, runs[k]) && EndsBefore(runs[k], x, y))
    && (forall i, j :: 0 <= i < j < |runs| ==> Before(runs[i], runs[j]))
    && (forall u, v :: Passed(u, v, x, y) && IsLand(m, u, v) ==> Painted(runs, u, v))
  }

  predicate EndsBefore(r: Run, x: int, y: int)
  {
    r.y < y || (r.y == y && r.start + r.len <= x)
  }

  /** `(u, v)` comes before `(x, y)` in the scan. */
  predicate Passed(u: int, v: int, x: int, y: int)
  {
    v < y || (v == y && u < x)
  }

  lemma NothingBefore(m: Bitmap)
    requires Complete(m)
    ensures RunsBefore(m, [], 0, 0)
  {
  }

  /** Passing water changes nothing. */
  lemma SkipWater(m: Bitmap, runs: seq<Run>, x: int, y: int)
    requires Complete(m) && RunsBefore(m, runs, x, y) && !IsLand(m, x, y)
    ensures RunsBefore(m, runs, x + 1, y)
  {
    hide Maximal, Before, Painted, Land;
    forall u, v | Passed(u, v, x + 1, y) && IsLand(m, u, v)
      ensures Painted(runs, u, v)
    {
      assert Passed(u, v, x, y);
    }
  }

  /** A stretch of land with water, or the edge, on both sides is the next run. */
  lemma AddRun(m: Bitmap, runs: seq<Run>, start: nat, y: nat, len: nat)
    requires Complete(m) && RunsBefore(m, runs, start, y) && Maximal(m, Run(y, start, len))
    ensures RunsBefore(m, runs + [Run(y, start, len)], start + len, y)
  {
    hide Land;
    var r := Run(y, start, len);
    var more := runs + [r];
    forall k | 0 <= k < |runs|
      ensures Before(runs[k], r) && EndsBefore(runs[k], start + len, y)
    {
      assert Maximal(m, runs[k]) && EndsBefore(runs[k], start, y);
      assert IsLand(m, r.start, y);
    }
    forall u, v | Passed(u, v, start + len, y) && IsLand(m, u, v)
      ensures Painted(more, u, v)
    {
      if Passed(u, v, start, y) {
        var k :| 0 <= k < |runs| && Covers(runs[k], u, v);
        assert Covers(more[k], u, v);
      } else {
        assert Covers(more[|runs|], u, v);
      }
    }
  }

  /** The end of a row is the start of the next. */
  lemma NextRow(m: Bitmap, runs: seq<Run>, x: int, y: int)
    requires Complete(m) && RunsBefore(m, runs, x, y) && x >= m.width
    ensures RunsBefore(m, runs, 0, y + 1)
  {
    hide Maximal, Before, Painted, Land;
    forall u, v | Passed(u, v, 0, y + 1) && IsLand(m, u, v)
      ensures Painted(runs, u, v)
    {
      assert Inside(m, u, v);
      assert Passed(u, v, x, y);
    }
    forall k | 0 <= k < |runs|
      ensures EndsBefore(runs[k], 0, y + 1)
    {
      assert EndsBefore(runs[k], x, y);
    }
  }

  lemma AllFound(m: Bitmap, runs: seq<Run>)
    requires Complete(m) && RunsBefore(m, runs, 0, m.height)
    ensures RunsOf(m, runs)
  {
    hide Land;
    forall x, y
      ensures Painted(runs, x, y) <==> IsLand(m, x, y)
    {
      if IsLand(m, x, y) {
        assert Passed(x, y, 0, m.height);
      }
      if Painted(runs, x, y) {
        var k :| 0 <= k < |runs| && Covers(runs[k], x, y);
        assert Maximal(m, runs[k]);
      }
    }
  }

  /** `land_runs`, what it yields collected in order. */
  method Generate(m: Bitmap) returns (runs: seq<Run>)
    requires Complete(m)
    ensures RunsOf(m, runs)
  {
    hide RunsBefore, Land, RunsOf;
    runs := [];
    NothingBefore(m);
    for y := 0 to m.height
      invariant RunsBefore(m, runs, 0, y)
    {
      var x := 0;
      while x < m.width
        invariant 0 <= x <= m.width
        invariant RunsBefore(m, runs, x, y)
        invariant x > 0 && IsLand(m, x - 1, y) ==> !IsLand(m, x, y)
      {
        while x < m.width
          invariant 0 <= x <= m.width
          invariant RunsBefore(m, runs, x, y)
          invariant x > 0 && IsLand(m, x - 1, y) ==> !IsLand(m, x, y)
        {
          if Land(m, x, y) {
            break;
          }
          SkipWater(m, runs, x, y);
          x := x + 1;
        }
        if x >= m.width {
          break;
        }
        var runStart := x;
        while x < m.width
          invariant runStart <= x <= m.width
          invariant forall u :: runStart <= u < x ==> IsLand(m, u, y)
          invariant x == runStart ==> IsLand(m, x, y)
        {
          if !Land(m, x, y) {
            break;
          }
          x := x + 1;
        }
        AddRun(m, runs, runStart, y, x - runStart);
        runs := runs + [Run(y, runStart, x - runStart)];
      }
      NextRow(m, runs, x, y);
    }
    AllFound(m, runs);
  }

  // ------------------------------------------------------ the answer is the only one

  /** The first pixel of a run tells where it stands in the order. */
  predicate NotAfter(a: Run, b: Run)
  {
    a.y < b.y || (a.y == b.y && a.start <= b.start)
  }

  /** The first pixel of a run is in no earlier run. */
  lemma EarlierRunMisses(m: Bitmap, runs: seq<Run>, k: nat)
    requires Complete(m) && RunsOf(m, runs) && k < |runs|
    ensures forall i :: 0 <= i < k ==> !Covers(runs[i], runs[k].start, runs[k].y)
  {
    hide Maximal, IsLand;
    assert forall i :: 0 <= i < k ==> Before(runs[i], runs[k]);
  }

  /** Of two run lists that agree up to `k`, neither has its next run after the other's. */
  lemma NextIsNotAfter(m: Bitmap, a: seq<Run>, b: seq<Run>, k: nat)
    requires Complete(m) && RunsOf(m, a) && RunsOf(m, b)
    requires k < |b| && k <= |a| && a[..k] == b[..k]
    ensures k < |a| && NotAfter(a[k], b[k])
  {
    hide Land;
    var r := b[k];
    assert Maximal(m, r);
    assert IsLand(m, r.start, r.y);
    assert Painted(a, r.start, r.y);
    var j :| 0 <= j < |a| && Covers(a[j], r.start, r.y);
    EarlierRunMisses(m, b, k);
    assert forall i :: 0 <= i < k ==> a[i] == a[..k][i] == b[..k][i] == b[i];
    if j > k {
      assert Before(a[k], a[j]);
    }
  }

  /** A maximal run is fixed by where it starts. */
  lemma SameStart(m: Bitmap, a: Run, b: Run)
    requires Complete(m) && Maximal(m, a) && Maximal(m, b) && a.y == b.y && a.start == b.start
    ensures a == b
  {
    hide Land;
    assert !IsLand(m, a.start + a.len, a.y) && !IsLand(m, b.start + b.len, b.y);
  }

  lemma {:induction false} SamePrefix(m: Bitmap, a: seq<Run>, b: seq<Run>, k: nat)
    requires Complete(m) && RunsOf(m, a) && RunsOf(m, b)
    requires k <= |a|
    ensures k <= |b| && a[..k] == b[..k]
  {
    hide RunsOf, Maximal;
    if k > 0 {
      SamePrefix(m, a, b, k - 1);
      NextIsNotAfter(m, b, a, k - 1);
      NextIsNotAfter(m, a, b, k - 1);
      RunIsMaximal(m, a, k - 1);
      RunIsMaximal(m, b, k - 1);
      SameStart(m, a[k - 1], b[k - 1]);
      assert a[..k] == a[..k - 1] + [a[k - 1]] && b[..k] == b[..k - 1] + [b[k - 1]];
    }
  }

  lemma RunIsMaximal(m: Bitmap, runs: seq<Run>, k: nat)
    requires Complete(m) && RunsOf(m, runs) && k < |runs|
    ensures Maximal(m, runs[k])
  {
  }

  /** A bitmap has one list of runs only: disjoint, maximal, in order and painting exactly the land. */
  lemma RunsAreUnique(m: Bitmap, a: seq<Run>, b: seq<Run>)
    requires Complete(m) && RunsOf(m, a) && RunsOf(m, b)
    ensures a == b
  {
    hide RunsOf;
    SamePrefix(m, a, b, |a|);
    SamePrefix(m, b, a, |b|);
    assert a[..|a|] == a && b[..|b|] == b;
  }

  /** No pixel is painted twice. */
  lemma RunsAreDisjoint(m: Bitmap, runs: seq<Run>, i: nat, j: nat, x: int, y: int)
    requires Complete(m) && RunsOf(m, runs) && i < |runs| && j < |runs|
    requires Covers(runs[i], x, y) && Covers(runs[j], x, y)
    ensures i == j
  {
    hide Maximal, IsLand;
    assert i < j ==> Before(runs[i], runs[j]);
    assert j < i ==> Before(runs[j], runs[i]);
  }
}
