/** otsu.js: the moving-average threshold that turns a greyscale scanline
    into bars (0) and spaces (1). Only `RollingSum`, `smooth` and
    `smoothThresh` are modelled; the histogram-based `otsu` scoring is not. */
module Otsu {
  import opened Util

  /** A greyscale sample, as stored in a Uint8Array. */
  type Pixel = x: int | 0 <= x <= 255

  function Min(a: int, b: int): int
  {
    if a < b then a else b
  }

  /** The last min(|s|, k) values of s. */
  function LastN(s: seq<int>, k: nat): seq<int>
  {
    if |s| < k then s else s[|s| - k..]
  }

  /** The floor of the mean of a non-empty window: what storing `sum / length`
      into a Uint8Array keeps when the mean lies in 0..255. */
  function MeanFloor(s: seq<int>): int
    requires s != []
  {
    MeanOf(Total(s), |s|)
  }

  /** The floor of total / count. */
  function MeanOf(total: int, count: nat): int
    requires count > 0
  {
    (total as real / count as real).Floor
  }

  /** The slots read from index start on, wrapping around to the front. */
  function Rotate(a: seq<int>, start: nat): seq<int>
    requires start <= |a|
  {
    a[start..] + a[..start]
  }

  /** The slot after p in a ring of n slots. */
  function Next(p: nat, n: nat): nat
  {
    if p + 1 < n then p + 1 else 0
  }

  /** The window w is laid out in a from index start on, wrapping around. */
  ghost predicate Layout(a: seq<int>, start: nat, w: seq<int>)
    decreases |w|
  {
    start < |a| && |w| <= |a|
    && (w != [] ==> a[start] == w[0] && Layout(a, Next(start, |a|), w[1..]))
  }

  /** Reading one slot on is rotating by one more. */
  lemma {:induction false} RotateNext(a: seq<int>, s: nat)
    requires s < |a|
    ensures Rotate(a, Next(s, |a|)) == Rotate(a, s)[1..] + [a[s]]
  {
    if s + 1 < |a| {
      assert a[s..] == [a[s]] + a[s + 1..];
      assert a[..s + 1] == a[..s] + [a[s]];
    } else {
      assert a[s..] == [a[s]];
      assert Rotate(a, 0) == a == a[..s] + [a[s]];
    }
  }

  /** A window is laid out from start exactly when it is a prefix of the
      slots rotated to start. */
  lemma {:induction false} LayoutRotated(a: seq<int>, s: nat, w: seq<int>)
    requires s < |a|
    ensures Layout(a, s, w) <==> |w| <= |a| && w == Rotate(a, s)[..|w|]
    decreases |w|
  {
    if w != [] && |w| <= |a| {
      var n := Next(s, |a|);
      LayoutRotated(a, n, w[1..]);
      RotateNext(a, s);
      var r := Rotate(a, s);
      assert Rotate(a, n)[..|w| - 1] == r[1..|w|];
      if w == r[..|w|] {
        assert w[1..] == r[1..|w|];
      }
      if a[s] == w[0] && w[1..] == r[1..|w|] {
        assert w == [w[0]] + w[1..];
        assert r[..|w|] == [r[0]] + r[1..|w|];
      }
    }
  }

  /** Pushing onto a window that is not yet full writes the next free slot. */
  lemma {:induction false} LayoutAppend(a: seq<int>, w: seq<int>, x: int)
    requires Layout(a, 0, w) && |w| < |a|
    ensures Layout(a[|w| := x], 0, w + [x])
  {
    LayoutRotated(a, 0, w);
    LayoutRotated(a[|w| := x], 0, w + [x]);
    assert Rotate(a, 0) == a;
    assert Rotate(a[|w| := x], 0) == a[|w| := x];
  }

  /** Pushing onto a full window overwrites its oldest value and moves the
      start one slot on. */
  lemma {:induction false} LayoutRotate(a: seq<int>, p: nat, w: seq<int>, x: int)
    requires Layout(a, p, w) && |w| == |a|
    ensures a[p] == w[0]
    ensures Layout(a[p := x], Next(p, |a|), w[1..] + [x])
  {
    var b := a[p := x];
    LayoutRotated(a, p, w);
    LayoutRotated(b, Next(p, |a|), w[1..] + [x]);
    assert w == a[p..] + a[..p];
    if p + 1 < |a| {
      assert b[p + 1..] == a[p + 1..];
      assert b[..p + 1] == a[..p] + [x];
      assert w[1..] == a[p + 1..] + a[..p];
    } else {
      assert Rotate(b, 0) == b == a[..p] + [x];
      assert w[1..] == a[..p];
    }
  }

  /** A window of at most k values after x is pushed: x joins at the back and,
      when the window was full, its oldest value leaves. */
  function Slide(w: seq<int>, x: int, k: nat): seq<int>
    requires 0 < k
  {
    if |w| < k then w + [x] else w[1..] + [x]
  }

  /** A window of at most k values after one more is appended. */
  lemma {:induction false} LastNPush(w: seq<int>, x: int, k: nat)
    requires 0 < k && |w| <= k
    ensures LastN(w + [x], k) == Slide(w, x, k)
  {
  }

  /** The last k values of s + [x] are the last k of (the last k of s) + [x]. */
  lemma {:induction false} LastNAppend(s: seq<int>, x: int, k: nat)
    requires 0 < k
    ensures LastN(s + [x], k) == LastN(LastN(s, k) + [x], k)
  {
    if |s| >= k {
      assert (s + [x])[|s| + 1 - k..] == s[|s| - k..][1..] + [x];
    }
  }

  /** The state of a RollingSum as values: slots a, the window w it holds
      and the running sum. */
  ghost predicate Ring(a: seq<int>, pointer: nat, length: nat, w: seq<int>, sum: int)
  {
    0 < |a| && length == |w| <= |a| && pointer < |a|
    && (length < |a| ==> pointer == length)
    && Layout(a, if length < |a| then 0 else pointer, w)
    && sum == Total(w)
  }

  /** One push keeps the ring consistent: the window gains x and, when it was
      full, loses its oldest value, which is the one at the pointer. */
  lemma {:induction false} RingPush(a: seq<int>, pointer: nat, length: nat, w: seq<int>, sum: int, x: int)
    requires Ring(a, pointer, length, w, sum)
    ensures length >= |a| ==> a[pointer] == w[0]
    ensures var full := length >= |a|;
      Ring(a[pointer := x], Next(pointer, |a|),
           if full then length else length + 1,
           Slide(w, x, |a|),
           (if full then sum - a[pointer] else sum) + x)
  {
    if length >= |a| {
      LayoutRotate(a, pointer, w, x);
      TotalTail(w);
      TotalConcat(w[1..], [x]);
    } else {
      LayoutAppend(a, w, x);
      TotalConcat(w, [x]);
    }
  }

  /** A moving sum over the last `slots.Length` values pushed. The window is
      kept in `slots`: while it is filling it occupies slots[..length] and
      pointer == length; once full, the oldest value sits at `pointer` and the
      window wraps around the end of the array. */
  class RollingSum {
    const slots: array<int>
    var pointer: nat
    var length: nat
    var sum: int
    /** The values the sum covers, oldest first. */
    ghost var Window: seq<int>

    ghost predicate Valid()
      reads this, slots
    {
      Ring(slots[..], pointer, length, Window, sum)
    }

    constructor (width: nat)
      requires width > 0
      ensures Valid() && fresh(slots) && slots.Length == width
      ensures Window == []
    {
      slots := new int[width](_ => 0);
      pointer, length, sum := 0, 0, 0;
      Window := [];
    }

    /** Adds x to the window, evicting the oldest value once the window is
        full. Only the slot at the old pointer changes, and when the window
        was full that slot held its oldest value. */
    method Push(x: Pixel)
      requires Valid()
      modifies this, slots
      ensures Valid()
      ensures Window == Slide(old(Window), x, slots.Length)
      ensures slots[..] == old(slots[..])[old(pointer) := x]
      ensures old(length) == slots.Length ==> old(slots[pointer]) == old(Window[0])
      ensures pointer == (old(pointer) + 1) % slots.Length
    {
      RingPush(slots[..], pointer, length, Window, sum, x);
      ModWrap(pointer + 1, slots.Length);
      Window := Slide(Window, x, slots.Length);
      if length >= slots.Length {
        sum := sum - slots[pointer];
      } else {
        length := length + 1;
      }
      sum := sum + x;
      slots[pointer] := x;
      // (pointer + 1) % slots.length, written as the wrap it is
      pointer := if pointer + 1 < slots.Length then pointer + 1 else 0;
    }

    /** `sum / length`: the mean of the window. */
    function Mean(): (m: real)
      requires Valid() && length > 0
      reads this, slots
      ensures m == Total(Window) as real / |Window| as real
      ensures m.Floor == MeanFloor(Window)
    {
      sum as real / length as real
    }
  }

  /** The mean of a window of pixels is itself a pixel value. */
  lemma {:induction false} MeanFloorRange(s: seq<int>)
    requires s != [] && forall i :: 0 <= i < |s| ==> 0 <= s[i] <= 255
    ensures 0 <= MeanFloor(s) <= 255
  {
    TotalBounded(s, 0, 255);
    var m := Total(s) as real / |s| as real;
    assert m * |s| as real == Total(s) as real;
    assert 0.0 <= m <= 255.0;
  }

  /** The initialisation loop of `smooth` pushes the first min(|line|, width)
      pixels before the main loop starts. */
  function Prefill(line: seq<int>, width: nat): seq<int>
  {
    line[..Min(|line|, width)]
  }

  /** The window of the moving average after the pre-filled pixels and then
      line[..j] have been pushed, one push at a time. */
  function RollWindow(line: seq<int>, width: nat, j: nat): (w: seq<int>)
    requires 0 < width && j <= |line|
    ensures |w| <= width && (j > 0 ==> |w| > 0)
  {
    if j == 0 then Prefill(line, width) else Slide(RollWindow(line, width, j - 1), line[j - 1], width)
  }

  /** Pushing one value at a time keeps the last `width` of everything
      pushed: the pre-filled pixels, then line[..j]. */
  lemma {:induction false} RollWindowLastN(line: seq<int>, width: nat, j: nat)
    requires 0 < width && j <= |line|
    ensures RollWindow(line, width, j) == LastN(Prefill(line, width) + line[..j], width)
  {
    var p := Prefill(line, width);
    if j == 0 {
      assert p + line[..0] == p;
    } else {
      RollWindowLastN(line, width, j - 1);
      LastNAppend(p + line[..j - 1], line[j - 1], width);
      LastNPush(RollWindow(line, width, j - 1), line[j - 1], width);
      assert p + line[..j - 1] + [line[j - 1]] == p + line[..j];
    }
  }

  /** The first n values `smooth` stores: at each index i, the floor of the
      mean of the window once line[i] has been pushed. */
  function SmoothUpTo(line: seq<int>, width: nat, n: nat): (r: seq<int>)
    requires 0 < width && n <= |line|
    ensures |r| == n
  {
    if n == 0 then [] else SmoothUpTo(line, width, n - 1) + [MeanFloor(RollWindow(line, width, n))]
  }

  /** What `smooth` returns. */
  function SmoothSpec(line: seq<int>, width: nat): (r: seq<int>)
    requires 0 < width
    ensures |r| == |line|
  {
    SmoothUpTo(line, width, |line|)
  }

  lemma {:induction false} SmoothUpToAt(line: seq<int>, width: nat, n: nat, i: nat)
    requires 0 < width && i < n <= |line|
    ensures SmoothUpTo(line, width, n)[i] == MeanFloor(RollWindow(line, width, i + 1))
  {
    var prev, last := SmoothUpTo(line, width, n - 1), MeanFloor(RollWindow(line, width, n));
    assert SmoothUpTo(line, width, n) == prev + [last];
    if i < n - 1 {
      SmoothUpToAt(line, width, n - 1, i);
      assert (prev + [last])[i] == prev[i];
    }
  }

  /** Entry i of the smoothed line is the floor of the mean of the last
      `width` values pushed once line[i] has been: the pre-filled pixels
      followed by line[..i + 1]. */
  lemma {:induction false} SmoothSpecAt(line: seq<int>, width: nat, i: nat)
    requires 0 < width && i < |line|
    ensures var w := LastN(Prefill(line, width) + line[..i + 1], width);
      w != [] && SmoothSpec(line, width)[i] == MeanFloor(w)
  {
    SmoothUpToAt(line, width, |line|, i);
    RollWindowLastN(line, width, i + 1);
  }

  /** The moving average of `line` over `width` pixels, one output per pixel. */
  method Smooth(line: seq<Pixel>, width: nat) returns (ret: seq<int>)
    requires width > 0
    ensures ret == SmoothSpec(line, width)
  {
    var roll := new RollingSum(width);
    // initialize the moving average
    var i := 0;
    while i < |line| && i < width
      invariant i <= width && i <= |line|
      invariant roll.Valid() && fresh(roll.slots) && roll.slots.Length == width
      invariant roll.Window == line[..i]
    {
      roll.Push(line[i]);
      assert roll.Window == line[..i] + [line[i]];
      assert line[..i + 1] == line[..i] + [line[i]];
      i := i + 1;
    }
    // generate the moving average
    assert roll.Window == RollWindow(line, width, 0);
    ret := [];
    for j := 0 to |line|
      invariant roll.Valid() && fresh(roll.slots) && roll.slots.Length == width
      invariant roll.Window == RollWindow(line, width, j)
      invariant ret == SmoothUpTo(line, width, j)
    {
      roll.Push(line[j]);
      assert roll.Window == RollWindow(line, width, j + 1);
      // a Uint8Array store of the non-negative mean keeps its floor
      ret := ret + [roll.Mean().Floor];
    }
  }

  /** Every smoothed value is a pixel value. */
  lemma {:induction false} SmoothRange(line: seq<Pixel>, width: nat, i: nat)
    requires width > 0 && i < |line|
    ensures 0 <= SmoothSpec(line, width)[i] <= 255
  {
    SmoothSpecAt(line, width, i);
    var s := Prefill(line, width) + line[..i + 1];
    assert forall k :: 0 <= k < |s| ==> 0 <= s[k] <= 255;
    MeanFloorRange(LastN(s, width));
  }

  /** Once the window has slid past the start, the output is the mean of the
      `width` pixels ending at i. */
  lemma {:induction false} SmoothSteady(line: seq<int>, width: nat, i: nat)
    requires 0 < width <= |line| && width - 1 <= i < |line|
    ensures SmoothSpec(line, width)[i] == MeanFloor(line[i + 1 - width..i + 1])
  {
    SmoothSpecAt(line, width, i);
    var s := Prefill(line, width) + line[..i + 1];
    assert LastN(s, width) == line[i + 1 - width..i + 1];
  }

  /** Before that, the pre-filled pixels make the window a rotation of the
      first `width` pixels, so the output is their mean. */
  lemma {:induction false} SmoothWarmUp(line: seq<int>, width: nat, i: nat)
    requires 0 < width <= |line| && i < width - 1
    ensures SmoothSpec(line, width)[i] == MeanFloor(line[..width])
  {
    SmoothSpecAt(line, width, i);
    WarmUpWindow(line, width, i);
    var head, tail := line[..i + 1], line[i + 1..width];
    assert line[..width] == head + tail;
    TotalSwap(head, tail);
  }

  /** While warming up, the window is the pre-filled pixels not yet
      overwritten followed by the pixels pushed again. */
  lemma {:induction false} WarmUpWindow(line: seq<int>, width: nat, i: nat)
    requires 0 < width <= |line| && i < width - 1
    ensures LastN(Prefill(line, width) + line[..i + 1], width) == line[i + 1..width] + line[..i + 1]
  {
    var s := line[..width] + line[..i + 1];
    assert Prefill(line, width) + line[..i + 1] == s;
    assert s[|s| - width..] == line[i + 1..width] + line[..i + 1];
  }

  /** Swapping the two halves of a sequence keeps its total. */
  lemma {:induction false} TotalSwap(a: seq<int>, b: seq<int>)
    ensures Total(a + b) == Total(b + a)
  {
    TotalConcat(a, b);
    TotalConcat(b, a);
  }

  /** ret[i] is 1 exactly when the pixel is brighter than its scaled local
      mean, and 0 otherwise (the boolean stored into a Uint8Array). */
  function Binarize(line: seq<int>, thresh: seq<int>, factor: real): (r: seq<int>)
    requires |thresh| == |line|
    ensures |r| == |line|
  {
    seq(|line|, i requires 0 <= i < |line| =>
      if line[i] as real > thresh[i] as real * factor then 1 else 0)
  }

  /** The binarised line: 1 where the pixel is brighter than `factor` times
      its moving average, 0 elsewhere. */
  method SmoothThresh(line: seq<Pixel>, width: nat, factor: real) returns (ret: seq<int>)
    requires width > 0
    ensures ret == Binarize(line, SmoothSpec(line, width), factor)
  {
    var thresh := Smooth(line, width);
    var out := new int[|line|];
    for i := 0 to |line|
      invariant forall k :: 0 <= k < i ==> out[k] == Binarize(line, thresh, factor)[k]
    {
      out[i] := if line[i] as real > thresh[i] as real * factor then 1 else 0;
    }
    ret := out[..];
  }

  /** Every binarised value is 0 or 1, and 1 exactly when the pixel beats the
      scaled threshold. */
  lemma {:induction false} BinarizeBits(line: seq<int>, thresh: seq<int>, factor: real, i: nat)
    requires |thresh| == |line| && i < |line|
    ensures Binarize(line, thresh, factor)[i] in {0, 1}
    ensures Binarize(line, thresh, factor)[i] == 1 <==> line[i] as real > thresh[i] as real * factor
  {
  }

  /** A window of equal values sums to their number times the value. */
  lemma {:induction false} TotalConstant(s: seq<int>, c: int)
    requires forall k :: 0 <= k < |s| ==> s[k] == c
    ensures Total(s) == c * |s|
  {
    if s != [] {
      TotalConstant(s[..|s| - 1], c);
    }
  }

  /** A window of equal values averages to that value. */
  lemma {:induction false} MeanFloorConstant(w: seq<int>, c: int)
    requires w != [] && forall k :: 0 <= k < |w| ==> w[k] == c
    ensures MeanFloor(w) == c
  {
    TotalConstant(w, c);
    var n := |w| as real;
    assert Total(w) as real == c as real * n;
    assert Total(w) as real / n == c as real;
  }

  /** Every smoothed value of an evenly lit line is its brightness. */
  lemma {:induction false} SmoothConstant(line: seq<int>, c: int, width: nat, i: nat)
    requires width > 0 && i < |line|
    requires forall k :: 0 <= k < |line| ==> line[k] == c
    ensures SmoothSpec(line, width)[i] == c
  {
    SmoothSpecAt(line, width, i);
    var s := Prefill(line, width) + line[..i + 1];
    assert forall k :: 0 <= k < |s| ==> s[k] == c;
    var w := LastN(s, width);
    assert forall k :: 0 <= k < |w| ==> w[k] == s[|s| - |w| + k];
    MeanFloorConstant(w, c);
  }

  /** Scaling a positive value by a factor below 1 makes it smaller. */
  lemma {:induction false} ScaledBelow(c: int, factor: real)
    requires c > 0 && factor < 1.0
    ensures c as real * factor < c as real
  {
    assert c as real * (1.0 - factor) > 0.0;
  }

  /** An evenly lit line of brightness c > 0 is all space: every pixel beats
      a scaled mean of c when the factor is below 1. */
  lemma {:induction false} ConstantLineWhite(line: seq<int>, c: int, width: nat, factor: real)
    requires width > 0 && c > 0 && factor < 1.0
    requires forall k :: 0 <= k < |line| ==> line[k] == c
    ensures forall i :: 0 <= i < |line| ==> Binarize(line, SmoothSpec(line, width), factor)[i] == 1
  {
    forall i | 0 <= i < |line|
      ensures Binarize(line, SmoothSpec(line, width), factor)[i] == 1
    {
      ConstantPixelWhite(line, c, width, factor, i);
    }
  }

  lemma {:induction false} ConstantPixelWhite(line: seq<int>, c: int, width: nat, factor: real, i: nat)
    requires width > 0 && c > 0 && factor < 1.0 && i < |line|
    requires forall k :: 0 <= k < |line| ==> line[k] == c
    ensures Binarize(line, SmoothSpec(line, width), factor)[i] == 1
  {
    var thresh := SmoothSpec(line, width);
    SmoothConstant(line, c, width, i);
    ScaledBelow(c, factor);
    BinarizeBits(line, thresh, factor, i);
    assert line[i] == thresh[i] == c;
  }
}
