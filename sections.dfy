/** barcode.js, from the clipped line to the fifteen EAN-13 groups: the
    run-length sections `decode` builds, `EAN_GROUPS` and `getGroups`. */
module Sections {
  import opened Util
  import opened Otsu

  // ---------------------------------------------------------------------
  // Slices

  /** `Array.prototype.slice(a, b)` with non-negative bounds: both bounds
      are clamped to the length, and a range that is empty or reversed
      gives []. */
  function Slice<T>(s: seq<T>, a: nat, b: nat): (r: seq<T>)
    ensures |r| <= |s| && (b <= |s| && a <= b ==> r == s[a..b])
    ensures a >= |s| || b <= a ==> r == []
  {
    var lo := if a < |s| then a else |s|;
    var hi := if b < |s| then b else |s|;
    if lo <= hi then s[lo..hi] else []
  }

  // ---------------------------------------------------------------------
  // Sections

  /** One run of equal pixels, `{x, pixels}`: its colour and its width. */
  datatype Section = Section(x: int, pixels: nat)

  /** The pixels a list of sections stands for, in order. */
  function Expand(secs: seq<Section>): seq<int>
  {
    if secs == [] then []
    else
      var last := secs[|secs| - 1];
      Expand(secs[..|secs| - 1]) + seq(last.pixels, _ => last.x)
  }

  /** A proper run-length encoding: every section is at least one pixel wide
      and neighbouring sections differ in colour. */
  ghost predicate Runs(secs: seq<Section>)
  {
    (forall i :: 0 <= i < |secs| ==> secs[i].pixels >= 1)
    && (forall i :: 0 < i < |secs| ==> secs[i - 1].x != secs[i].x)
  }

  /** One pixel of the section loop: a new section when the colour changes
      (or there is none yet), otherwise the last section grows by one. */
  function Step(secs: seq<Section>, x: int): (r: seq<Section>)
  {
    if secs == [] || secs[|secs| - 1].x != x then secs + [Section(x, 1)]
    else secs[|secs| - 1 := Section(x, secs[|secs| - 1].pixels + 1)]
  }

  /** The run-length encoding of a whole line, one Step per pixel. */
  function RunLength(s: seq<int>): seq<Section>
  {
    if s == [] then [] else Step(RunLength(s[..|s| - 1]), s[|s| - 1])
  }

  /** A step keeps the sections a proper encoding. */
  lemma StepRuns(secs: seq<Section>, x: int)
    requires Runs(secs)
    ensures Runs(Step(secs, x))
  {
  }

  /** A step adds the pixel to what the sections stand for, and adds at
      most one section. */
  lemma StepExpand(secs: seq<Section>, x: int)
    ensures var r := Step(secs, x);
      Expand(r) == Expand(secs) + [x] && 1 <= |r| <= |secs| + 1
  {
    var r := Step(secs, x);
    if secs == [] || secs[|secs| - 1].x != x {
      assert r[..|secs|] == secs;
    } else {
      var n := |secs| - 1;
      var last := secs[n];
      assert r[..n] == secs[..n];
      assert seq(last.pixels + 1, _ => x) == seq(last.pixels, _ => last.x) + [x];
    }
  }

  /** The encoding of a line is proper, and has at least one and at most
      as many sections as the line has pixels. */
  lemma {:induction false} RunLengthRuns(s: seq<int>)
    ensures var r := RunLength(s);
      Runs(r) && |r| <= |s| && (s != [] ==> r != [])
  {
    if s != [] {
      var init := s[..|s| - 1];
      RunLengthRuns(init);
      StepRuns(RunLength(init), s[|s| - 1]);
      StepExpand(RunLength(init), s[|s| - 1]);
    }
  }

  /** The encoding of a line stands for exactly the line. */
  lemma {:induction false} RunLengthExpand(s: seq<int>)
    ensures Expand(RunLength(s)) == s
  {
    if s != [] {
      var init, last := s[..|s| - 1], s[|s| - 1];
      RunLengthExpand(init);
      StepExpand(RunLength(init), last);
      Snoc(s);
    }
  }

  // ---------------------------------------------------------------------
  // The section loop of decode

  /** `util.sum(EAN_GROUPS)`: the sections the groups use. */
  const MAX_SECTIONS: int := Total(EAN_GROUPS)

  /** The sections after k pixels of the loop, which breaks as soon as there
      are more than MAX_SECTIONS of them. */
  function Scan(inner: seq<int>, k: nat): seq<Section>
    requires k <= |inner|
  {
    if k == 0 then []
    else
      var prev := Scan(inner, k - 1);
      if |prev| > MAX_SECTIONS then prev else Step(prev, inner[k - 1])
  }

  /** The sections `decode` cuts the groups from. */
  function SectionsOf(inner: seq<int>): seq<Section>
  {
    Scan(inner, |inner|)
  }

  /** After the loop has broken off, further pixels change nothing. */
  lemma {:induction false} ScanStops(inner: seq<int>, i: nat, j: nat)
    requires i <= j <= |inner| && |Scan(inner, i)| > MAX_SECTIONS
    ensures Scan(inner, j) == Scan(inner, i)
    decreases j
  {
    if j > i {
      ScanStops(inner, i, j - 1);
    }
  }

  /** The loop never holds more than MAX_SECTIONS + 1 sections. */
  lemma {:induction false} ScanBound(inner: seq<int>, k: nat)
    requires k <= |inner|
    ensures |Scan(inner, k)| <= MAX_SECTIONS + 1
  {
    if k == 0 {
      EanGroupsTotal();
    } else {
      ScanBound(inner, k - 1);
    }
  }

  /** The loop holds the encoding of a prefix of the line: all of it, or
      the prefix that first makes MAX_SECTIONS + 1 sections. */
  lemma {:induction false} ScanRunLength(inner: seq<int>, k: nat)
    requires k <= |inner|
    ensures exists m: nat :: (m <= k && Scan(inner, k) == RunLength(inner[..m])
      && (m == k || |Scan(inner, k)| == MAX_SECTIONS + 1))
  {
    if k == 0 {
      assert inner[..0] == [];
    } else {
      var prev := Scan(inner, k - 1);
      ScanRunLength(inner, k - 1);
      ScanBound(inner, k - 1);
      var m: nat :| m <= k - 1 && prev == RunLength(inner[..m])
        && (m == k - 1 || |prev| == MAX_SECTIONS + 1);
      if |prev| <= MAX_SECTIONS {
        assert m == k - 1;
        assert inner[..k][..k - 1] == inner[..m];
        assert Scan(inner, k) == RunLength(inner[..k]);
      }
    }
  }

  /** What the section loop of decode produces: at most MAX_SECTIONS + 1
      sections, a proper encoding of the start of the clipped line (the
      whole of it unless the loop broke off at MAX_SECTIONS + 1), and at
      least one section for a non-empty line. */
  lemma SectionsShape(inner: seq<int>)
    ensures var secs := SectionsOf(inner);
      |secs| <= MAX_SECTIONS + 1 && Runs(secs) && (inner != [] ==> secs != [])
      && exists m: nat :: (m <= |inner| && Expand(secs) == inner[..m]
           && (m == |inner| || |secs| == MAX_SECTIONS + 1))
  {
    var secs := SectionsOf(inner);
    ScanRunLength(inner, |inner|);
    ScanBound(inner, |inner|);
    var m: nat :| m <= |inner| && secs == RunLength(inner[..m])
      && (m == |inner| || |secs| == MAX_SECTIONS + 1);
    RunLengthRuns(inner[..m]);
    RunLengthExpand(inner[..m]);
    EanGroupsTotal();
  }

  /** The section loop of decode. */
  method ScanSections(inner: seq<int>) returns (sections: seq<Section>)
    ensures sections == SectionsOf(inner)
  {
    var maxSections := Sum(EAN_GROUPS);
    EanGroupsTotal();
    sections := [];
    var i := 0;
    while i < |inner|
      invariant i <= |inner| && sections == Scan(inner, i)
      invariant |sections| <= maxSections
    {
      var x := inner[i];
      if sections == [] || sections[|sections| - 1].x != x {
        sections := sections + [Section(x, 1)];
      } else {
        sections := sections[|sections| - 1 := Section(x, sections[|sections| - 1].pixels + 1)];
      }
      i := i + 1;
      if |sections| > maxSections {
        ScanStops(inner, i, |inner|);
        return;
      }
    }
  }

  // ---------------------------------------------------------------------
  // getGroups

  /** Module counts of the EAN-13 groups: start guard, six left digits,
      centre guard, six right digits, end guard (in sections). */
  const EAN_GROUPS: seq<nat> := [3, 4, 4, 4, 4, 4, 4, 5, 4, 4, 4, 4, 4, 4, 3]

  /** The fifteen groups use 59 sections. */
  lemma EanGroupsTotal()
    ensures |EAN_GROUPS| == 15 && MAX_SECTIONS == 59
  {
    var guard, left, centre, right := [3], seq(6, _ => 4), [5], seq(6, _ => 4);
    assert EAN_GROUPS == guard + left + centre + right + guard;
    TotalConstant(left, 4);
    TotalConstant(right, 4);
    TotalConcat(guard, left);
    TotalConcat(guard + left, centre);
    TotalConcat(guard + left + centre, right);
    TotalConcat(guard + left + centre + right, guard);
    assert Total(guard) == 3 && Total(centre) == 5;
  }

  /** Where group i starts among the sections. */
  function Start(i: nat): nat
    requires i <= |EAN_GROUPS|
  {
    TotalNonNegative(EAN_GROUPS[..i]);
    Total(EAN_GROUPS[..i])
  }

  /** Group i ends where group i + 1 starts, and every group ends by
      MAX_SECTIONS. */
  lemma StartNext(i: nat)
    requires i < |EAN_GROUPS|
    ensures Start(i + 1) == Start(i) + EAN_GROUPS[i] <= MAX_SECTIONS
  {
    assert EAN_GROUPS[..i + 1][..i] == EAN_GROUPS[..i];
    EanGroupsTotal();
    TotalConcat(EAN_GROUPS[..i + 1], EAN_GROUPS[i + 1..]);
    assert EAN_GROUPS[..i + 1] + EAN_GROUPS[i + 1..] == EAN_GROUPS;
    TotalNonNegative(EAN_GROUPS[i + 1..]);
  }

  /** `.map(section => section.pixels)`. */
  function Widths(secs: seq<Section>): (w: seq<nat>)
    ensures |w| == |secs|
  {
    seq(|secs|, i requires 0 <= i < |secs| => secs[i].pixels)
  }

  /** Group i: the widths of the sections from Start(i), EAN_GROUPS[i] of
      them, fewer when the sections run out. */
  function Group(secs: seq<Section>, i: nat): seq<nat>
    requires i < |EAN_GROUPS|
  {
    Widths(Slice(secs, Start(i), Start(i) + EAN_GROUPS[i]))
  }

  function GroupsOf(secs: seq<Section>): (g: seq<seq<nat>>)
    ensures |g| == |EAN_GROUPS|
  {
    seq(|EAN_GROUPS|, i requires 0 <= i < |EAN_GROUPS| => Group(secs, i))
  }

  /** Group i of the list is group i as getGroups' loop slices it. */
  lemma GroupAt(secs: seq<Section>, i: nat)
    requires i < |EAN_GROUPS|
    ensures GroupsOf(secs)[i] == Widths(Slice(secs, Start(i), Start(i) + EAN_GROUPS[i]))
  {
  }

  /** Group i holds the widths from Start(i) to Start(i + 1), clamped. */
  lemma GroupIs(secs: seq<Section>, i: nat)
    requires i < |EAN_GROUPS|
    ensures var lo, hi := Min(|secs|, Start(i)), Min(|secs|, Start(i + 1));
      lo <= hi && GroupsOf(secs)[i] == Widths(secs)[lo..hi]
  {
    StartNext(i);
    var lo, hi := Min(|secs|, Start(i)), Min(|secs|, Start(i + 1));
    assert Slice(secs, Start(i), Start(i + 1)) == secs[lo..hi];
    assert Widths(secs[lo..hi]) == Widths(secs)[lo..hi];
  }

  lemma Snoc<T>(s: seq<T>)
    requires s != []
    ensures s[..|s| - 1] + [s[|s| - 1]] == s
  {
  }

  lemma PrefixSplit<T>(w: seq<T>, lo: nat, hi: nat)
    requires lo <= hi <= |w|
    ensures w[..lo] + w[lo..hi] == w[..hi] && w[..hi][..lo] == w[..lo]
  {
  }

  /** The concatenation of a list of groups. */
  function Flatten(gs: seq<seq<nat>>): seq<nat>
  {
    if gs == [] then [] else Flatten(gs[..|gs| - 1]) + gs[|gs| - 1]
  }

  /** The first i groups, concatenated, are the widths of the sections up to
      Start(i): the groups take the widths in order, skipping none. */
  lemma {:induction false} GroupsPrefix(secs: seq<Section>, i: nat)
    requires i <= |EAN_GROUPS|
    ensures Flatten(GroupsOf(secs)[..i]) == Widths(secs)[..Min(|secs|, Start(i))]
  {
    var g := GroupsOf(secs);
    if i == 0 {
      assert g[..0] == [];
    } else {
      GroupsPrefix(secs, i - 1);
      GroupIs(secs, i - 1);
      var w, lo, hi := Widths(secs), Min(|secs|, Start(i - 1)), Min(|secs|, Start(i));
      var prev, cur := g[..i - 1], g[..i];
      PrefixSplit(g, i - 1, i);
      assert cur[..|cur| - 1] == prev && cur[|cur| - 1] == g[i - 1];
      assert Flatten(cur) == Flatten(prev) + g[i - 1];
      assert Flatten(prev) == w[..lo] && g[i - 1] == w[lo..hi];
      PrefixSplit(w, lo, hi);
    }
  }

  /** getGroups returns fifteen groups, group i holding at most
      EAN_GROUPS[i] widths, exactly that many when there are at least
      MAX_SECTIONS sections; together they are the first MAX_SECTIONS
      widths, in order. */
  lemma GroupsShape(secs: seq<Section>)
    ensures var g := GroupsOf(secs);
      |g| == 15
      && (forall i :: 0 <= i < 15 ==> |g[i]| <= EAN_GROUPS[i])
      && (|secs| >= MAX_SECTIONS ==> forall i :: 0 <= i < 15 ==> |g[i]| == EAN_GROUPS[i])
      && Flatten(g) == Widths(secs)[..Min(|secs|, MAX_SECTIONS)]
  {
    var g := GroupsOf(secs);
    EanGroupsTotal();
    forall i | 0 <= i < 15
      ensures |g[i]| <= EAN_GROUPS[i]
      ensures |secs| >= MAX_SECTIONS ==> |g[i]| == EAN_GROUPS[i]
    {
      StartNext(i);
    }
    GroupsPrefix(secs, 15);
    assert g[..15] == g && EAN_GROUPS[..15] == EAN_GROUPS;
  }

  /** getGroups: fifteen slices of the section widths, the start advancing
      by each group's module count. */
  method GetGroups(sections: seq<Section>) returns (output: seq<seq<nat>>)
    ensures output == GroupsOf(sections)
  {
    ghost var groups := GroupsOf(sections);
    var out := new seq<nat>[|EAN_GROUPS|];
    var j := 0;
    for i := 0 to |EAN_GROUPS|
      invariant j == Start(i)
      invariant forall k :: 0 <= k < i ==> out[k] == groups[k]
    {
      ghost var before := out[..];
      out[i] := Widths(Slice(sections, j, j + EAN_GROUPS[i]));
      GroupAt(sections, i);
      assert out[..] == before[i := groups[i]];
      StartNext(i);
      j := j + EAN_GROUPS[i];
    }
    output := out[..];
  }



}
