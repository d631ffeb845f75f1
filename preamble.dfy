/** barcode.js, first stage: find the start guard of an EAN-13 symbol in a
    binarised scanline (1 = space, 0 = bar). `findPreamble` run-length
    encodes the line into a five-slot ring of runs and stops at the
    first place where a space is followed by three narrow, even bands. */
module Preamble {
  import opened Wrappers
  import opened Util

  /** How many runs the ring keeps. */
  const RING: nat := 5
  /** Bounds on the width of each of the three guard bands. */
  const MIN_BAND: int := 1
  const MAX_BAND: int := 10

  /** A run of equal pixels as in run-length encoding: it starts at `index`,
      has colour `color` and is `n` pixels wide. */
  datatype Run = Run(index: int, color: int, n: nat)

  /** The ring after pixel x at index i: the newest run grows when it has
      colour x; otherwise a new run of width 1 is pushed, evicting the
      oldest run when the ring is full. */
  function Step(w: seq<Run>, i: int, x: int): (v: seq<Run>)
  {
    if w != [] && w[|w| - 1].color == x then w[..|w| - 1] + [w[|w| - 1].(n := w[|w| - 1].n + 1)]
    else if |w| < RING then w + [Run(i, x, 1)]
    else w[1..] + [Run(i, x, 1)]
  }

  /** The ring once the first i pixels of the line have been read. */
  function RunWindow(line: seq<int>, i: nat): (w: seq<Run>)
    requires i <= |line|
    ensures |w| <= RING
  {
    if i == 0 then [] else Step(RunWindow(line, i - 1), i - 1, line[i - 1])
  }

  /** runsInBound: Ok(true) when runs a..b-1 all have widths in [min, max],
      Ok(false) at the first that does not, and the "out of bounds" the ring
      throws when an index before that is not held. */
  function InBound(w: seq<Run>, a: int, b: int, min: int, max: int): Result<bool>
    decreases b - a
  {
    if a >= b then Ok(true)
    else if !(0 <= a < |w|) then Err("out of bounds")
    else if w[a].n < min || w[a].n > max then Ok(false)
    else InBound(w, a + 1, b, min, max)
  }

  /** Within the held runs, InBound is the plain bounds check. */
  lemma {:induction false} InBoundAll(w: seq<Run>, a: int, b: int, min: int, max: int)
    requires 0 <= a && b <= |w|
    ensures InBound(w, a, b, min, max) == Ok(forall k :: a <= k < b ==> min <= w[k].n <= max)
    decreases b - a
  {
    if a < b {
      InBoundAll(w, a + 1, b, min, max);
    }
  }

  /** Checks the widths of runs a..b-1 of the ring against [min, max]. */
  method RunsInBound(runs: CircularBuffer<Run>, a: int, b: int, min: int, max: int) returns (r: Result<bool>)
    requires runs.Valid()
    ensures r == InBound(runs.Contents, a, b, min, max)
  {
    var i := a;
    while i < b
      invariant a <= i || b <= a
      invariant InBound(runs.Contents, a, b, min, max) == InBound(runs.Contents, i, b, min, max)
      decreases b - i
    {
      var run := runs.Get(i);
      if run.Err? {
        return Err(run.error);
      }
      if run.value.n < min || run.value.n > max {
        return Ok(false);
      }
      i := i + 1;
    }
    return Ok(true);
  }

  /** The sum of squared deviations of the values from m. */
  function Deviation(values: seq<nat>, m: real): real
  {
    if values == [] then 0.0
    else Deviation(values[..|values| - 1], m) + (values[|values| - 1] as real - m) * (values[|values| - 1] as real - m)
  }

  /** barError: the summed squared deviation of the widths divided by their
      mean (not by their number); None where that is 0/0, a NaN that no
      comparison accepts. */
  function BarError(values: seq<nat>): Option<real>
  {
    if Total(values) == 0 then None
    else
      var mean := Total(values) as real / |values| as real;
      Some(Deviation(values, mean) / mean)
  }

  function Square(x: int): int
  {
    x * x
  }

  /** The deviation of three values, written out. */
  lemma {:induction false} Deviation3(a: nat, b: nat, c: nat, m: real)
    ensures Deviation([a, b, c], m)
      == (a as real - m) * (a as real - m) + (b as real - m) * (b as real - m) + (c as real - m) * (c as real - m)
  {
    var v := [a, b, c];
    assert v[..2] == [a, b] && v[..2][..1] == [a] && v[..2][..1][..0] == [];
    assert Deviation([a], m) == (a as real - m) * (a as real - m);
    assert Deviation([a, b], m) == Deviation([a], m) + (b as real - m) * (b as real - m);
  }

  /** A deviation from s/3, scaled by 3, is an integer. */
  lemma {:induction false} ThirdSquare(x: int, s: int)
    ensures (x as real - s as real / 3.0) * (x as real - s as real / 3.0) == Square(3 * x - s) as real / 9.0
  {
    var d := x as real - s as real / 3.0;
    var e := (3 * x - s) as real;
    assert d == e / 3.0;
    assert d * d == (e * e) / 9.0;
  }

  /** Multiplying by a positive number keeps the sign. */
  lemma {:induction false} PosProduct(x: real, d: real)
    requires d > 0.0
    ensures x * d > 0.0 <==> x > 0.0
  {
    if x > 0.0 {
      assert x * d > 0.0;
    } else {
      assert x * d <= 0.0;
    }
  }

  /** Dividing by the positive mean s/3 compares with 2 as multiplying does. */
  lemma {:induction false} BelowTwo(q: int, s: int)
    requires s > 0
    ensures (q as real / 9.0) / (s as real / 3.0) < 2.0 <==> q < 6 * s
  {
    var r := (q as real / 9.0) / (s as real / 3.0);
    var d := 3.0 * s as real;
    assert r * d == q as real;
    assert (2.0 - r) * d == (6 * s - q) as real;
    PosProduct(2.0 - r, d);
  }

  /** The deviation of three widths of total s from their mean s/3, in
      ninths. */
  lemma {:induction false} DeviationThirds(a: nat, b: nat, c: nat)
    ensures var s := a + b + c;
      Deviation([a, b, c], s as real / 3.0)
      == (Square(3 * a - s) + Square(3 * b - s) + Square(3 * c - s)) as real / 9.0
  {
    var s := a + b + c;
    Deviation3(a, b, c, s as real / 3.0);
    ThirdSquare(a, s);
    ThirdSquare(b, s);
    ThirdSquare(c, s);
  }

  /** Three bands of total width s > 0 are even enough for a guard:
      sum((3w - s)^2) < 6s, which is `barError < 2` in integers. */
  predicate EvenBands(a: nat, b: nat, c: nat)
  {
    var s := a + b + c;
    s > 0 && Square(3 * a - s) + Square(3 * b - s) + Square(3 * c - s) < 6 * s
  }

  /** For three widths of total s, the guard test `barError < 2` is the
      integer test sum((3w - s)^2) < 6s. */
  lemma {:induction false} BarErrorTest(a: nat, b: nat, c: nat)
    ensures BarError([a, b, c]).Some? <==> a + b + c > 0
    ensures var e := BarError([a, b, c]); (e.Some? && e.value < 2.0) <==> EvenBands(a, b, c)
  {
    var s := a + b + c;
    var v := [a, b, c];
    assert Total(v) == s by {
      assert v[..2] == [a, b] && [a, b][..1] == [a] && [a][..0] == [];
      assert Total([a]) == a;
      assert Total([a, b]) == a + b;
    }
    if s > 0 {
      DeviationThirds(a, b, c);
      BelowTwo(Square(3 * a - s) + Square(3 * b - s) + Square(3 * c - s), s);
    }
  }

  /** The guard test on a full ring: a space, then three bands of width 1..10
      whose barError is below 2. */
  predicate Hit(w: seq<Run>)
  {
    |w| == RING && w[0].color == 1
    && InBound(w, 1, 4, MIN_BAND, MAX_BAND) == Ok(true)
    && EvenBands(w[1].n, w[2].n, w[3].n)
  }

  /** The ring after pixel j passes the guard test. */
  predicate HitAt(line: seq<int>, j: nat)
    requires j < |line|
  {
    Hit(RunWindow(line, j + 1))
  }

  /** The first index at or after i where hits holds, if any. */
  function FirstFrom(hits: seq<bool>, i: nat): (r: Option<nat>)
    requires i <= |hits|
    ensures r.Some? ==> i <= r.value < |hits| && hits[r.value]
    decreases |hits| - i
  {
    if i == |hits| then None
    else if hits[i] then Some(i)
    else FirstFrom(hits, i + 1)
  }

  /** The search from i finds nothing exactly when nothing from i on holds. */
  lemma {:induction false} FirstFromNone(hits: seq<bool>, i: nat)
    requires i <= |hits|
    ensures FirstFrom(hits, i) == None <==> forall j :: i <= j < |hits| ==> !hits[j]
    decreases |hits| - i
  {
    if i < |hits| {
      FirstFromNone(hits, i + 1);
    }
  }

  /** The search from i finds j exactly when j is the first index from i on
      that holds. */
  lemma {:induction false} FirstFromIs(hits: seq<bool>, i: nat, j: nat)
    requires i <= |hits|
    ensures FirstFrom(hits, i) == Some(j) <==>
      i <= j < |hits| && hits[j] && forall k :: i <= k < j ==> !hits[k]
    decreases |hits| - i
  {
    if i < |hits| && !hits[i] {
      FirstFromIs(hits, i + 1, j);
    }
  }

  /** Which pixels' rings pass the guard test. */
  function Hits(line: seq<int>): (hits: seq<bool>)
    ensures |hits| == |line|
  {
    seq(|line|, j requires 0 <= j < |line| => HitAt(line, j))
  }

  /** What findPreamble returns, None standing for undefined: the start of
      run 1 of the first ring that passes the guard test. */
  function PreambleOf(line: seq<int>): Option<int>
  {
    var first := FirstFrom(Hits(line), 0);
    if first.None? then None
    else Some(RunWindow(line, first.value + 1)[1].index)
  }

  /** findPreamble returns p exactly when some pixel j is the first whose
      ring passes the guard test, and p is where run 1 of that ring starts. */
  lemma {:induction false} PreambleOfFirstHit(line: seq<int>, p: int)
    ensures PreambleOf(line) == Some(p) <==>
      exists j :: 0 <= j < |line| && HitAt(line, j) && (forall k :: 0 <= k < j ==> !HitAt(line, k))
        && p == RunWindow(line, j + 1)[1].index
  {
    var hits := Hits(line);
    assert forall j :: 0 <= j < |line| ==> hits[j] == HitAt(line, j);
    var first := FirstFrom(hits, 0);
    if first.Some? {
      FirstFromIs(hits, 0, first.value);
      forall j | 0 <= j < |line| && HitAt(line, j) && (forall k :: 0 <= k < j ==> !HitAt(line, k))
        ensures j == first.value
      {
        FirstFromIs(hits, 0, j);
      }
    } else {
      FirstFromNone(hits, 0);
    }
  }

  /** findPreamble answers nothing exactly when no pixel is a hit. */
  lemma {:induction false} PreambleOfNoHit(line: seq<int>)
    ensures PreambleOf(line) == None <==> forall j :: 0 <= j < |line| ==> !HitAt(line, j)
  {
    var hits := Hits(line);
    assert forall j :: 0 <= j < |line| ==> hits[j] == HitAt(line, j);
    FirstFromNone(hits, 0);
  }

  /** When j is the first hit, findPreamble answers with run 1 of its ring. */
  lemma {:induction false} PreambleOfIs(line: seq<int>, j: nat)
    requires j < |line| && HitAt(line, j) && forall k :: 0 <= k < j ==> !HitAt(line, k)
    ensures PreambleOf(line) == Some(RunWindow(line, j + 1)[1].index)
  {
    PreambleOfFirstHit(line, RunWindow(line, j + 1)[1].index);
  }

  /** With no hit at all, findPreamble answers nothing. */
  lemma {:induction false} PreambleOfNone(line: seq<int>)
    requires forall k :: 0 <= k < |line| ==> !HitAt(line, k)
    ensures PreambleOf(line) == None
  {
    PreambleOfNoHit(line);
  }

  /** A miss at pixel i extends the stretch of misses. */
  lemma {:induction false} StillClear(line: seq<int>, i: nat)
    requires i < |line| && (forall k :: 0 <= k < i ==> !HitAt(line, k)) && !HitAt(line, i)
    ensures forall k :: 0 <= k < i + 1 ==> !HitAt(line, k)
  {
  }

  /** Where a run ends (one past its last pixel). */
  function End(r: Run): int
  {
    r.index + r.n
  }

  /** Run b directly follows run a and has the other colour. */
  predicate Adjacent(a: Run, b: Run)
  {
    b.index == End(a) && b.color != a.color
  }

  /** Run r lies within the line and all its pixels have its colour. */
  ghost predicate Covers(line: seq<int>, r: Run)
  {
    1 <= r.n && 0 <= r.index && End(r) <= |line|
    && forall j :: r.index <= j < End(r) ==> line[j] == r.color
  }

  /** The ring after i pixels describes the line: each run covers pixels of
      its colour, consecutive runs touch and differ in colour, and the
      newest run ends at pixel i. */
  ghost predicate WellFormed(line: seq<int>, i: nat, w: seq<Run>)
  {
    i <= |line| && (i == 0 <==> w == [])
    && (forall k :: 0 <= k < |w| ==> Covers(line, w[k]))
    && (forall k, l :: 0 <= k && l == k + 1 && l < |w| ==> Adjacent(w[k], w[l]))
    && (w != [] ==> End(w[|w| - 1]) == i)
  }

  /** A pixel of the newest run's colour widens it. */
  lemma {:induction false} GrowWellFormed(line: seq<int>, i: nat, w: seq<Run>)
    requires i < |line| && WellFormed(line, i, w) && w != [] && w[|w| - 1].color == line[i]
    ensures WellFormed(line, i + 1, w[..|w| - 1] + [w[|w| - 1].(n := w[|w| - 1].n + 1)])
  {
    var last := w[|w| - 1];
    var grown := last.(n := last.n + 1);
    var v := w[..|w| - 1] + [grown];
    assert Covers(line, last);
    assert Covers(line, grown) by {
      forall j | grown.index <= j < End(grown)
        ensures line[j] == grown.color
      {
        if j < i {
          assert last.index <= j < End(last);
        }
      }
    }
    assert forall k :: 0 <= k < |v| - 1 ==> v[k] == w[k];
    forall k, l | 0 <= k && l == k + 1 && l < |v|
      ensures Adjacent(v[k], v[l])
    {
      assert Adjacent(w[k], w[l]);
    }
  }

  /** Without its oldest run the ring still describes the line. */
  lemma {:induction false} DropWellFormed(line: seq<int>, i: nat, w: seq<Run>)
    requires WellFormed(line, i, w) && |w| > 1
    ensures WellFormed(line, i, w[1..])
  {
    var v := w[1..];
    assert forall k :: 0 <= k < |v| ==> v[k] == w[k + 1];
    forall k, l | 0 <= k && l == k + 1 && l < |v|
      ensures Adjacent(v[k], v[l])
    {
      assert Adjacent(w[k + 1], w[l + 1]);
    }
  }

  /** A pixel of another colour starts a run of width 1. */
  lemma {:induction false} PushWellFormed(line: seq<int>, i: nat, u: seq<Run>)
    requires i < |line| && WellFormed(line, i, u)
    requires u != [] ==> u[|u| - 1].color != line[i]
    ensures WellFormed(line, i + 1, u + [Run(i, line[i], 1)])
  {
    var v := u + [Run(i, line[i], 1)];
    assert forall k :: 0 <= k < |u| ==> v[k] == u[k];
    assert Covers(line, Run(i, line[i], 1));
    forall k, l | 0 <= k && l == k + 1 && l < |v|
      ensures Adjacent(v[k], v[l])
    {
      if l < |u| {
        assert Adjacent(u[k], u[l]);
      }
    }
  }

  /** Reading one more pixel keeps the ring well formed. */
  lemma {:induction false} StepWellFormed(line: seq<int>, i: nat, w: seq<Run>)
    requires i < |line| && WellFormed(line, i, w)
    ensures WellFormed(line, i + 1, Step(w, i, line[i]))
  {
    if w != [] && w[|w| - 1].color == line[i] {
      GrowWellFormed(line, i, w);
    } else if |w| < RING {
      PushWellFormed(line, i, w);
    } else {
      DropWellFormed(line, i, w);
      PushWellFormed(line, i, w[1..]);
    }
  }

  /** The ring findPreamble keeps is well formed after every pixel. */
  lemma {:induction false} RunWindowWellFormed(line: seq<int>, i: nat)
    requires i <= |line|
    ensures WellFormed(line, i, RunWindow(line, i))
  {
    if i > 0 {
      RunWindowWellFormed(line, i - 1);
      StepWellFormed(line, i - 1, RunWindow(line, i - 1));
    }
  }

  /** What findPreamble returns is the first pixel of a run that directly
      follows a run of spaces: the pixel before it is a space and it is not. */
  lemma {:induction false} PreambleBoundary(line: seq<int>, p: int)
    requires PreambleOf(line) == Some(p)
    ensures 0 < p < |line| && line[p - 1] == 1 && line[p] != 1
  {
    var j := FirstFrom(Hits(line), 0).value;
    assert HitAt(line, j);
    var w := RunWindow(line, j + 1);
    RunWindowWellFormed(line, j + 1);
    assert Adjacent(w[0], w[1]);
    assert Covers(line, w[0]) && Covers(line, w[1]);
    assert line[p - 1] == w[0].color;
    assert line[p] == w[1].color;
  }

  /** An evenly coloured line never holds more than one run, so no guard is
      ever found in it. */
  lemma {:induction false} FlatLineNoPreamble(line: seq<int>, c: int)
    requires forall j :: 0 <= j < |line| ==> line[j] == c
    ensures PreambleOf(line) == None
  {
    forall j | 0 <= j < |line|
      ensures !HitAt(line, j)
    {
      FlatWindow(line, c, j + 1);
    }
    PreambleOfNoHit(line);
  }

  /** The ring over an evenly coloured line is its single run. */
  lemma {:induction false} FlatWindow(line: seq<int>, c: int, i: nat)
    requires i <= |line| && forall j :: 0 <= j < |line| ==> line[j] == c
    ensures RunWindow(line, i) == if i == 0 then [] else [Run(0, c, i)]
  {
    if i > 0 {
      FlatWindow(line, c, i - 1);
    }
  }

  /** `runs.last().n += 1`: the newest run, held in the ring's last slot,
      grows by one pixel in place. */
  method Widen(runs: CircularBuffer<Run>)
    requires runs.Valid() && runs.length > 0
    modifies runs, runs.values
    ensures runs.Valid()
    ensures var c := old(runs.Contents);
      runs.Contents == c[..|c| - 1] + [c[|c| - 1].(n := c[|c| - 1].n + 1)]
  {
    ghost var c := runs.Contents;
    var last := runs.Last();
    var k := runs.pointer + runs.length - 1;
    if k >= runs.n {
      k := k - runs.n;
    }
    runs.values[k] := Some(last.value.(n := last.value.n + 1));
    runs.Contents := c[..|c| - 1] + [c[|c| - 1].(n := c[|c| - 1].n + 1)];
    forall i | 0 <= i < runs.length
      ensures runs.values[runs.Slot(i)] == Some(runs.Contents[i])
    {
      if i < runs.length - 1 {
        assert runs.Slot(i) != k;
      }
    }
    forall i | runs.length <= i < runs.n
      ensures runs.values[runs.Slot(i)] == None
    {
      assert runs.Slot(i) != k;
    }
  }

  /** The loop body's first half: the newest run grows when it has colour x,
      otherwise a new run of width 1 is pushed, evicting the oldest run when
      the ring is full. */
  method Extend(runs: CircularBuffer<Run>, i: int, x: int)
    requires runs.Valid() && runs.n == RING
    modifies runs, runs.values
    ensures runs.Valid() && runs.n == RING
    ensures runs.Contents == Step(old(runs.Contents), i, x)
  {
    if runs.length > 0 {
      var last := runs.Last();
      if last.value.color == x {
        Widen(runs);
        return;
      }
    }
    var _ := runs.Push(Run(i, x, 1), true);
  }

  /** The loop body's second half: the ring is full, its oldest run is a
      space, the three runs after it are bands of width 1..10, and their
      barError is below 2. When it passes, start is where run 1 begins. */
  method Guard(runs: CircularBuffer<Run>) returns (hit: bool, start: int)
    requires runs.Valid()
    ensures hit == Hit(runs.Contents)
    ensures hit ==> start == runs.Contents[1].index
  {
    hit, start := false, 0;
    if runs.length == RING {
      var first := runs.Get(0);
      if first.value.color == 1 {
        var inBound := RunsInBound(runs, 1, 4, MIN_BAND, MAX_BAND);
        if inBound == Ok(true) {
          var r1 := runs.Get(1);
          var r2 := runs.Get(2);
          var r3 := runs.Get(3);
          var e := BarError([r1.value.n, r2.value.n, r3.value.n]);
          BarErrorTest(r1.value.n, r2.value.n, r3.value.n);
          hit, start := e.Some? && e.value < 2.0, r1.value.index;
        }
      }
    }
  }

  /** Run-length encodes the line into the ring and returns the index of the
      first bar of the first start guard found. */
  method FindPreamble(line: seq<int>) returns (r: Option<int>)
    ensures r == PreambleOf(line)
  {
    var runs := new CircularBuffer<Run>(RING);
    for i := 0 to |line|
      invariant runs.Valid() && runs.n == RING && fresh(runs.values)
      invariant runs.Contents == RunWindow(line, i)
      invariant forall k :: 0 <= k < i ==> !HitAt(line, k)
    {
      Extend(runs, i, line[i]);
      var hit, start := Guard(runs);
      if hit {
        PreambleOfIs(line, i);
        return Some(start);
      }
      StillClear(line, i);
    }
    PreambleOfNone(line);
    return None;
  }
}
