/** util.js: numeric folds over arrays, the cartesian product used by the
    digit search, and the fixed-capacity ring buffer used by the preamble
    locator. */
module Util {
  import opened Wrappers

  // ---------------------------------------------------------------------
  // sum

  /** The total of a sequence, folded from the left as `sum` does. */
  function Total(s: seq<int>): int
  {
    if s == [] then 0 else Total(s[..|s| - 1]) + s[|s| - 1]
  }

  lemma {:induction false} TotalConcat(a: seq<int>, b: seq<int>)
    ensures Total(a + b) == Total(a) + Total(b)
  {
    if b == [] {
      assert a + b == a;
    } else {
      TotalConcat(a, b[..|b| - 1]);
      assert (a + b)[..|a + b| - 1] == a + b[..|b| - 1];
    }
  }

  /** Removing the first element takes it off the total. */
  lemma TotalTail(s: seq<int>)
    requires s != []
    ensures Total(s) == s[0] + Total(s[1..])
  {
    TotalConcat([s[0]], s[1..]);
    assert [s[0]] + s[1..] == s;
  }

  lemma {:induction false} TotalNonNegative(s: seq<int>)
    requires forall i :: 0 <= i < |s| ==> s[i] >= 0
    ensures Total(s) >= 0
  {
    if s != [] {
      TotalNonNegative(s[..|s| - 1]);
    }
  }

  lemma {:induction false} TotalBounded(s: seq<int>, lo: int, hi: int)
    requires forall i :: 0 <= i < |s| ==> lo <= s[i] <= hi
    ensures lo * |s| <= Total(s) <= hi * |s|
  {
    if s != [] {
      var n := |s| - 1;
      TotalBounded(s[..n], lo, hi);
      MulSucc(lo, n);
      MulSucc(hi, n);
    }
  }

  lemma MulSucc(a: int, n: nat)
    ensures a * (n + 1) == a * n + a
  {
  }

  /** Adding one to a single entry adds one to the total. */
  lemma {:induction false} TotalBump(s: seq<int>, k: nat)
    requires k < |s|
    ensures Total(s[k := s[k] + 1]) == Total(s) + 1
  {
    if k == |s| - 1 {
      assert s[k := s[k] + 1][..|s| - 1] == s[..|s| - 1];
    } else {
      TotalBump(s[..|s| - 1], k);
      assert s[k := s[k] + 1][..|s| - 1] == s[..|s| - 1][k := s[k] + 1];
    }
  }

  method Sum(items: seq<int>) returns (tot: int)
    ensures tot == Total(items)
  {
    tot := 0;
    for i := 0 to |items|
      invariant tot == Total(items[..i])
    {
      assert items[..i + 1][..i] == items[..i];
      tot := tot + items[i];
    }
    assert items[..|items|] == items;
  }

  // ---------------------------------------------------------------------
  // imax

  /** Index of the maximum; a later element replaces the running maximum only
      when strictly greater, so ties keep the earliest index. An empty array
      gives 0. */
  method Imax(items: seq<int>) returns (index: nat)
    ensures |items| == 0 ==> index == 0
    ensures |items| > 0 ==> index < |items|
    ensures |items| > 0 ==> forall j :: 0 <= j < |items| ==> items[j] <= items[index]
    ensures |items| > 0 ==> forall j :: 0 <= j < index ==> items[j] < items[index]
  {
    index := 0;
    if |items| == 0 {
      return;
    }
    var max := items[0];
    for i := 0 to |items|
      invariant index < |items| && max == items[index]
      invariant forall j :: 0 <= j < i ==> items[j] <= max
      invariant forall j :: 0 <= j < index ==> items[j] < max
    {
      if items[i] > max {
        max := items[i];
        index := i;
      }
    }
  }

  // ---------------------------------------------------------------------
  // histo

  datatype Histogram = Histogram(min: int, max: int, bins: seq<int>, nbins: nat, n: nat, mean: real)

  /** The bin `histo` increments for x, computed exactly as
      floor((x - min) / (max - min) * nbins). The write is dropped (None) when
      that index is outside the typed array, which happens for x == max, and
      when max == min, where the index is NaN. */
  function BinOf(x: int, min: int, max: int, nbins: nat): Option<nat>
  {
    if max <= min then None
    else
      var ibin := (x - min) * nbins / (max - min);
      if 0 <= ibin < nbins then Some(ibin) else None
  }

  /** Exact bin counts of a, before any 16-bit wrap-around. */
  function BinCounts(a: seq<int>, min: int, max: int, nbins: nat): (bins: seq<int>)
    ensures |bins| == nbins
  {
    if a == [] then seq(nbins, _ => 0)
    else
      var bins := BinCounts(a[..|a| - 1], min, max, nbins);
      match BinOf(a[|a| - 1], min, max, nbins)
      case None => bins
      case Some(b) => bins[b := bins[b] + 1]
  }

  /** What a Uint16Array holds after the increments: each count modulo 2^16. */
  function Wrap16(counts: seq<int>): seq<int>
  {
    seq(|counts|, i requires 0 <= i < |counts| => counts[i] % 0x1_0000)
  }

  method Histo(items: seq<int>, nbins: nat) returns (h: Histogram)
    requires |items| > 0
    ensures h.min in items && h.max in items
    ensures forall i :: 0 <= i < |items| ==> h.min <= items[i] <= h.max
    ensures h.n == |items| && h.nbins == nbins
    ensures h.mean == Total(items) as real / |items| as real
    ensures h.bins == Wrap16(BinCounts(items, h.min, h.max, nbins))
  {
    var min, max, total := items[0], items[0], 0;
    for i := 0 to |items|
      invariant min in items && max in items && min <= max
      invariant forall j :: 0 <= j < i ==> min <= items[j] <= max
      invariant total == Total(items[..i])
    {
      var x := items[i];
      if x < min {
        min := x;
      } else if x > max {
        max := x;
      }
      assert items[..i + 1][..i] == items[..i];
      total := total + x;
    }
    assert items[..|items|] == items;
    var bins := CountBins(items, min, max, nbins);
    h := Histogram(min, max, bins, nbins, |items|, total as real / |items| as real);
  }

  /** The counting loop of `histo`: one Uint16Array increment per value that
      lands in a bin. */
  method CountBins(items: seq<int>, min: int, max: int, nbins: nat) returns (counts: seq<int>)
    ensures counts == Wrap16(BinCounts(items, min, max, nbins))
  {
    var bins := new int[nbins](_ => 0);
    for i := 0 to |items|
      invariant bins[..] == Wrap16(BinCounts(items[..i], min, max, nbins))
    {
      ghost var before := BinCounts(items[..i], min, max, nbins);
      assert items[..i + 1][..i] == items[..i];
      // floor((x - min) / range * nbins), the write dropped when it falls
      // outside the typed array
      var ibin := BinOf(items[i], min, max, nbins);
      if ibin.Some? {
        Wrap16Bump(before, ibin.value);
        bins[ibin.value] := (bins[ibin.value] + 1) % 0x1_0000;
      }
    }
    assert items[..|items|] == items;
    counts := bins[..];
  }

  /** A Uint16Array increment wraps at 2^16. */
  lemma Wrap16Bump(counts: seq<int>, b: nat)
    requires b < |counts|
    ensures Wrap16(counts[b := counts[b] + 1]) == Wrap16(counts)[b := (Wrap16(counts)[b] + 1) % 0x1_0000]
  {
    var c, m := counts[b], 0x1_0000;
    var q, r := c / m, c % m;
    if r + 1 < m {
      DivMod(c + 1, m, q, r + 1);
      DivMod(r + 1, m, 0, r + 1);
    } else {
      DivMod(c + 1, m, q + 1, 0);
      DivMod(r + 1, m, 1, 0);
    }
  }

  /** A value strictly below max lands in a bin; max itself is dropped. */
  lemma BinOfInRange(x: int, min: int, max: int, nbins: nat)
    requires min < max && min <= x <= max && nbins > 0
    ensures x < max ==> BinOf(x, min, max, nbins).Some?
    ensures x == max ==> BinOf(x, min, max, nbins) == None
  {
    var range, off := max - min, x - min;
    if x < max {
      BinBelow(off, range, nbins);
    } else {
      DivMod(off * nbins, range, nbins, 0);
    }
  }

  /** off * nbins / range lies in 0..nbins - 1 for 0 <= off < range. */
  lemma BinBelow(off: nat, range: nat, nbins: nat)
    requires off < range && nbins > 0
    ensures 0 <= off * nbins / range < nbins
  {
    var p := off * nbins;
    MulLe(off + 1, range, nbins);
    assert (off + 1) * nbins == p + nbins;
    assert range * nbins == nbins * range;
    DivBelow(p, range, nbins);
  }

  lemma MulLe(a: int, b: int, d: nat)
    requires a <= b
    ensures a * d <= b * d
  {
  }

  lemma DivBelow(p: nat, d: int, q: int)
    requires d > 0 && p < q * d
    ensures p / d < q
  {
    DivMod(p, d, p / d, p % d);
    if p / d >= q {
      MulLe(q, p / d, d);
    }
  }

  /** Every counted value is one write; the dropped ones are not counted. */
  lemma {:induction false} BinCountsTotal(a: seq<int>, min: int, max: int, nbins: nat)
    requires min < max && nbins > 0
    requires forall i :: 0 <= i < |a| ==> min <= a[i] <= max
    ensures Total(BinCounts(a, min, max, nbins)) == |a| - multiset(a)[max]
  {
    if a == [] {
      ZeroTotal(nbins);
    } else {
      var init, x := a[..|a| - 1], a[|a| - 1];
      BinCountsTotal(init, min, max, nbins);
      assert a == init + [x];
      BinOfInRange(x, min, max, nbins);
      var bins := BinCounts(init, min, max, nbins);
      if x < max {
        TotalBump(bins, BinOf(x, min, max, nbins).value);
      }
    }
  }

  lemma {:induction false} ZeroTotal(n: nat)
    ensures Total(seq(n, _ => 0)) == 0
  {
    if n > 0 {
      ZeroTotal(n - 1);
      assert seq(n, _ => 0)[..n - 1] == seq(n - 1, _ => 0);
    }
  }

  lemma {:induction false} BinCountsBounded(a: seq<int>, min: int, max: int, nbins: nat)
    ensures forall b :: 0 <= b < nbins ==> 0 <= BinCounts(a, min, max, nbins)[b] <= |a|
  {
    if a != [] {
      BinCountsBounded(a[..|a| - 1], min, max, nbins);
    }
  }

  /** The histogram invariant as the code has it: with fewer than 2^16 values
      and a non-zero range, the bins hold every value except those equal to
      the maximum. */
  lemma HistoBinsTotal(a: seq<int>, min: int, max: int, nbins: nat)
    requires |a| < 0x1_0000 && min < max && nbins > 0
    requires forall i :: 0 <= i < |a| ==> min <= a[i] <= max
    ensures Total(Wrap16(BinCounts(a, min, max, nbins))) == |a| - multiset(a)[max]
  {
    BinCountsBounded(a, min, max, nbins);
    assert Wrap16(BinCounts(a, min, max, nbins)) == BinCounts(a, min, max, nbins);
    BinCountsTotal(a, min, max, nbins);
  }

  /** A constant array has range 0: every index is NaN and no bin is written. */
  lemma {:induction false} HistoConstantEmpty(a: seq<int>, v: int, nbins: nat)
    ensures BinCounts(a, v, v, nbins) == seq(nbins, _ => 0)
  {
    if a != [] {
      HistoConstantEmpty(a[..|a| - 1], v, nbins);
    }
  }

  /** The code loses the maximum: for [0, 1] in two bins only one value is
      counted, so sum(bins) == n fails. */
  lemma HistoDropsMax()
    ensures Total(BinCounts([0, 1], 0, 1, 2)) == 1
  {
    assert [0, 1][..1] == [0];
    assert [0][..0] == [];
    assert BinOf(0, 0, 1, 2) == Some(0);
    assert BinOf(1, 0, 1, 2) == None;
    assert BinCounts([0], 0, 1, 2) == [1, 0];
    assert Total([1, 0]) == Total([1]) + 0;
    assert [1, 0][..1] == [1];
    assert [1][..0] == [];
  }

  /** The intended binning: an index of nbins (x == max) is clamped to the last
      bin, and a zero range puts everything in bin 0. */
  function ClampedBinOf(x: int, min: int, max: int, nbins: nat): (b: Option<nat>)
    requires nbins > 0 && min <= x <= max
    ensures b.Some? && b.value < nbins
    ensures min < x < max ==> b == BinOf(x, min, max, nbins)
  {
    if max <= min then Some(0)
    else
      BinOfInRange(x, min, max, nbins);
      if x == max then Some(nbins - 1) else BinOf(x, min, max, nbins)
  }

  function ClampedBinCounts(a: seq<int>, min: int, max: int, nbins: nat): (bins: seq<int>)
    requires nbins > 0
    requires forall i :: 0 <= i < |a| ==> min <= a[i] <= max
    ensures |bins| == nbins
  {
    if a == [] then seq(nbins, _ => 0)
    else
      var bins := ClampedBinCounts(a[..|a| - 1], min, max, nbins);
      var b := ClampedBinOf(a[|a| - 1], min, max, nbins).value;
      bins[b := bins[b] + 1]
  }

  /** With clamping, the bins count every value: sum(bins) == n. */
  lemma {:induction false} ClampedBinsTotal(a: seq<int>, min: int, max: int, nbins: nat)
    requires nbins > 0
    requires forall i :: 0 <= i < |a| ==> min <= a[i] <= max
    ensures Total(ClampedBinCounts(a, min, max, nbins)) == |a|
  {
    if a == [] {
      ZeroTotal(nbins);
    } else {
      ClampedBinsTotal(a[..|a| - 1], min, max, nbins);
      var bins := ClampedBinCounts(a[..|a| - 1], min, max, nbins);
      TotalBump(bins, ClampedBinOf(a[|a| - 1], min, max, nbins).value);
    }
  }

  // ---------------------------------------------------------------------
  // threshold

  /** Each sample becomes 1 when above thresh and 0 otherwise (the boolean
      stored into a Uint8Array). */
  method Threshold(line: seq<int>, thresh: real) returns (ret: seq<int>)
    ensures |ret| == |line|
    ensures forall i :: 0 <= i < |line| ==> ret[i] in {0, 1}
    ensures forall i :: 0 <= i < |line| ==> (ret[i] == 1 <==> line[i] as real > thresh)
  {
    var out := new int[|line|];
    for i := 0 to |line|
      invariant forall j :: 0 <= j < i ==> out[j] == if line[j] as real > thresh then 1 else 0
    {
      out[i] := if line[i] as real > thresh then 1 else 0;
    }
    ret := out[..];
  }

  // ---------------------------------------------------------------------
  // permute

  /** For each x of heads in order, for each tail in order, the row [x] + tail. */
  function Extend<T>(heads: seq<T>, tails: seq<seq<T>>): seq<seq<T>>
  {
    if heads == [] then []
    else Extend(heads[..|heads| - 1], tails)
         + seq(|tails|, j requires 0 <= j < |tails| => [heads[|heads| - 1]] + tails[j])
  }

  /** The cartesian product of the choice lists, first list varying slowest. */
  function Product<T>(lists: seq<seq<T>>): seq<seq<T>>
    decreases |lists|
  {
    if |lists| == 0 then []
    else if |lists| == 1 then seq(|lists[0]|, i requires 0 <= i < |lists[0]| => [lists[0][i]])
    else Extend(lists[0], Product(lists[1..]))
  }

  /** The product of the lengths of the lists. */
  function Size<T>(lists: seq<seq<T>>): nat
  {
    if lists == [] then 1 else |lists[0]| * Size(lists[1..])
  }

  lemma {:induction false} ExtendAt<T>(heads: seq<T>, tails: seq<seq<T>>, i: nat, j: nat)
    requires i < |heads| && j < |tails|
    ensures |Extend(heads, tails)| == |heads| * |tails|
    ensures i * |tails| + j < |heads| * |tails|
    ensures Extend(heads, tails)[i * |tails| + j] == [heads[i]] + tails[j]
  {
    var n, t := |heads|, |tails|;
    var init := heads[..n - 1];
    ExtendLength(heads, tails);
    ExtendLength(init, tails);
    MulLe(i + 1, n, t);
    assert (i + 1) * t == i * t + t;
    if i < n - 1 {
      ExtendAt(init, tails, i, j);
    }
  }

  lemma {:induction false} ExtendLength<T>(heads: seq<T>, tails: seq<seq<T>>)
    ensures |Extend(heads, tails)| == |heads| * |tails|
  {
    if heads != [] {
      var n, t := |heads|, |tails|;
      ExtendLength(heads[..n - 1], tails);
      assert (n - 1) * t + t == n * t;
    }
  }

  lemma DivMod(k: int, d: int, q: int, r: int)
    requires d > 0 && 0 <= r < d && k == q * d + r
    ensures k / d == q && k % d == r
  {
    var q', r' := k / d, k % d;
    assert k == q' * d + r';
    if q' < q {
      MulLe(q' + 1, q, d);
    } else if q' > q {
      MulLe(q + 1, q', d);
    }
  }

  lemma {:induction false} ExtendMember<T>(heads: seq<T>, tails: seq<seq<T>>, row: seq<T>)
    ensures row in Extend(heads, tails) <==> |row| > 0 && row[0] in heads && row[1..] in tails
  {
    if heads != [] {
      var init, x := heads[..|heads| - 1], heads[|heads| - 1];
      ExtendMember(init, tails, row);
      var last := seq(|tails|, j requires 0 <= j < |tails| => [x] + tails[j]);
      assert Extend(heads, tails) == Extend(init, tails) + last;
      if |row| > 0 && row[1..] in tails && row[0] == x {
        var j :| 0 <= j < |tails| && tails[j] == row[1..];
        assert last[j] == row;
      }
      if row in last {
        var j :| 0 <= j < |tails| && last[j] == row;
        assert row[1..] == tails[j];
      }
      assert heads == init + [x];
    }
  }

  lemma {:induction false} ProductLength<T>(lists: seq<seq<T>>)
    requires |lists| > 0
    ensures |Product(lists)| == Size(lists)
    decreases |lists|
  {
    if |lists| == 1 {
      assert lists[1..] == [];
    } else {
      ProductLength(lists[1..]);
      ExtendLength(lists[0], Product(lists[1..]));
    }
  }

  /** The rows of the product are exactly the choices of one element per list. */
  lemma {:induction false} ProductMember<T>(lists: seq<seq<T>>, row: seq<T>)
    requires |lists| > 0
    ensures row in Product(lists) <==> |row| == |lists| && forall i :: 0 <= i < |row| ==> row[i] in lists[i]
    decreases |lists|
  {
    if |lists| == 1 {
      var p := Product(lists);
      if row in p {
        var i :| 0 <= i < |p| && p[i] == row;
      }
      if |row| == 1 && row[0] in lists[0] {
        var i :| 0 <= i < |lists[0]| && lists[0][i] == row[0];
        assert p[i] == row;
      }
    } else {
      ExtendMember(lists[0], Product(lists[1..]), row);
      if |row| > 0 {
        ProductMember(lists[1..], row[1..]);
        if |row| == |lists| && forall i :: 0 <= i < |row| ==> row[i] in lists[i] {
          assert forall i :: 0 <= i < |row| - 1 ==> row[1..][i] == row[i + 1];
        }
      }
    }
  }

  /** Lexicographic order: with T the number of rows of the remaining lists,
      row i * T + j is element i of the first list followed by row j of the
      rest, so the first list varies slowest. */
  lemma ProductAt<T>(lists: seq<seq<T>>, i: nat, j: nat)
    requires |lists| >= 2 && i < |lists[0]| && j < |Product(lists[1..])|
    ensures var tails := Product(lists[1..]);
      i * |tails| + j < |Product(lists)|
      && Product(lists)[i * |tails| + j] == [lists[0][i]] + tails[j]
  {
    ExtendAt(lists[0], Product(lists[1..]), i, j);
  }

  /** An empty choice list empties the product. */
  lemma ProductOfEmpty<T>(lists: seq<seq<T>>, i: nat)
    requires i < |lists| && lists[i] == []
    ensures Product(lists) == []
  {
    if Product(lists) != [] {
      var row := Product(lists)[0];
      ProductMember(lists, row);
    }
  }

  /** Singleton choice lists give exactly one row. */
  lemma {:induction false} ProductOfSingletons<T>(lists: seq<seq<T>>)
    requires |lists| > 0 && forall i :: 0 <= i < |lists| ==> |lists[i]| == 1
    ensures Product(lists) == [seq(|lists|, i requires 0 <= i < |lists| => lists[i][0])]
    decreases |lists|
  {
    var row := seq(|lists|, i requires 0 <= i < |lists| => lists[i][0]);
    if |lists| == 1 {
      assert Product(lists)[0] == [lists[0][0]] == row;
    } else {
      ProductOfSingletons(lists[1..]);
      var tails := Product(lists[1..]);
      assert seq(|lists| - 1, i requires 0 <= i < |lists| - 1 => lists[1..][i][0]) == row[1..];
      assert lists[0][..0] == [];
      assert Extend(lists[0], tails) == Extend([], tails) + [[lists[0][0]] + row[1..]];
      assert [lists[0][0]] + row[1..] == row;
    }
  }

  method Permute<T>(tuples: seq<seq<T>>) returns (ret: seq<seq<T>>)
    ensures ret == Product(tuples)
    decreases |tuples|
  {
    if |tuples| == 0 {
      return [];
    } else if |tuples| == 1 {
      return seq(|tuples[0]|, i requires 0 <= i < |tuples[0]| => [tuples[0][i]]);
    }
    var tails := Permute(tuples[1..]);
    var heads := tuples[0];
    ret := [];
    for a := 0 to |heads|
      invariant ret == Extend(heads[..a], tails)
    {
      var x := heads[a];
      for b := 0 to |tails|
        invariant ret == Extend(heads[..a], tails) + seq(b, j requires 0 <= j < b => [x] + tails[j])
      {
        ret := ret + [[x] + tails[b]];
      }
      assert heads[..a + 1][..a] == heads[..a];
    }
    assert heads[..|heads|] == heads;
  }

  // ---------------------------------------------------------------------
  // CircularBuffer

  lemma ModWrap(a: int, n: int)
    requires n > 0 && 0 <= a < 2 * n
    ensures a % n == if a < n then a else a - n
  {
    if a >= n {
      DivMod(a, n, 1, a - n);
    } else {
      DivMod(a, n, 0, a);
    }
  }

  /** A bounded FIFO over a fixed array: the live elements sit in the n slots
      from pointer onwards, wrapping around; the other slots are holes. */
  class CircularBuffer<T> {
    const n: nat
    var pointer: nat
    var length: nat
    const values: array<Option<T>>
    /** The live elements, oldest first. */
    ghost var Contents: seq<T>

    /** The array slot of the i-th live element. */
    function Slot(i: nat): nat
      reads this`pointer
    {
      if pointer + i < n then pointer + i else pointer + i - n
    }

    ghost predicate Valid()
      reads this, values
    {
      0 < n && values.Length == n && pointer < n && length <= n && |Contents| == length
      && (forall i :: 0 <= i < length ==> values[Slot(i)] == Some(Contents[i]))
      && (forall i :: length <= i < n ==> values[Slot(i)] == None)
    }

    constructor (n: nat)
      requires n > 0
      ensures Valid() && this.n == n && Contents == [] && fresh(values)
    {
      this.n := n;
      pointer := 0;
      length := 0;
      values := new Option<T>[n](_ => None);
      Contents := [];
    }

    /** Appends x. A full buffer either drops its oldest element first
        (evict) or throws "no space" and stays as it was. */
    method Push(x: T, evict: bool) returns (r: Outcome)
      requires Valid()
      modifies this, values
      ensures Valid()
      ensures r == if old(length) >= n && !evict then Fail("no space") else Pass
      ensures Contents == if old(length) < n then old(Contents) + [x]
                          else if evict then old(Contents)[1..] + [x]
                          else old(Contents)
      ensures r.Fail? ==> pointer == old(pointer) && length == old(length) && values[..] == old(values[..])
    {
      if length >= n {
        if evict {
          PopLeft();
        } else {
          return Fail("no space");
        }
      }
      assert Valid();
      ModWrap(pointer + length, n);
      ghost var slot := Slot(length);
      ghost var before := values[..];
      values[(pointer + length) % n] := Some(x);
      length := length + 1;
      Contents := Contents + [x];
      forall i | 0 <= i < length
        ensures values[Slot(i)] == Some(Contents[i])
      {
        assert i < length - 1 ==> Slot(i) != slot;
      }
      forall i | length <= i < n
        ensures values[Slot(i)] == None
      {
        assert Slot(i) != slot && before[Slot(i)] == None;
      }
      r := Pass;
    }

    method IncrementPointer()
      requires 0 < n && pointer < n
      modifies this`pointer
      ensures pointer == (old(pointer) + 1) % n
    {
      pointer := (pointer + 1) % n;
    }

    /** Removes the oldest element (the slot becomes a hole); no-op when empty. */
    method PopLeft()
      requires Valid()
      modifies this, values
      ensures Valid()
      ensures Contents == if old(length) == 0 then old(Contents) else old(Contents)[1..]
      ensures old(length) > 0 ==> length == old(length) - 1
    {
      if length > 0 {
        ghost var p := pointer;
        values[pointer] := None;
        IncrementPointer();
        ModWrap(p + 1, n);
        length := length - 1;
        Contents := Contents[1..];
        forall i | 0 <= i < length
          ensures values[Slot(i)] == Some(Contents[i])
        {
          assert Slot(i) == old(Slot(i + 1)) && Slot(i) != p;
        }
        forall i | length <= i < n
          ensures values[Slot(i)] == None
        {
          if i < n - 1 {
            assert Slot(i) == old(Slot(i + 1)) && Slot(i) != p;
          } else {
            assert Slot(i) == p;
          }
        }
      }
    }

    /** The index-th oldest element, or "out of bounds". */
    method Get(index: int) returns (r: Result<T>)
      requires Valid()
      ensures r == if 0 <= index < length then Ok(Contents[index]) else Err("out of bounds")
    {
      if index >= length || index < 0 {
        return Err("out of bounds");
      }
      ModWrap(pointer + index, n);
      assert values[Slot(index)] == Some(Contents[index]);
      r := Ok(values[(pointer + index) % n].value);
    }

    /** The newest element, or "empty". */
    method Last() returns (r: Result<T>)
      requires Valid()
      ensures r == if length == 0 then Err("empty") else Ok(Contents[length - 1])
    {
      if length == 0 {
        return Err("empty");
      }
      ModWrap(pointer + length - 1, n);
      assert values[Slot(length - 1)] == Some(Contents[length - 1]);
      r := Ok(values[(pointer + length - 1) % n].value);
    }
  }
}
