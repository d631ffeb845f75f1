/** laser.py, the Python prototype of the scanner: the search for a barcode
    run along a line of block ratios, the grouping of sections, the lookup
    table of the thirty digit strings and the single-rounding digit reader. */
module Laser {
  import opened Wrappers
  import opened Util
  import BarConst
  import Sections
  import Digits

  // ---------------------------------------------------------------------
  // find_run

  /** A block ratio that looks like part of a barcode. */
  predicate IsBarcode(ratio: real)
  {
    0.2 < ratio < 0.95
  }

  /** A block ratio that looks like the quiet zone around a barcode. */
  predicate IsWhite(ratio: real)
  {
    ratio >= 0.99
  }

  /** The variables of find_run's loop: where the current run opened, if
      anywhere, and the bar ratios gathered since. */
  datatype RunState = RunState(start: Option<nat>, run: seq<real>)

  /** The ratio at the current index ends an open run of 15 to 25 bar ratios. */
  predicate Closes(st: RunState, ratio: real)
  {
    st.start.Some? && IsWhite(ratio) && 15 <= |st.run| <= 25
  }

  /** One pass of the loop at index i when the ratio does not close the run:
      a white ratio (re)opens a run there, a bar ratio extends an open run,
      anything else drops it. */
  function Advance(st: RunState, i: nat, ratio: real): RunState
  {
    if st.start.None? then
      if IsWhite(ratio) then RunState(Some(i), st.run) else st
    else if IsWhite(ratio) then RunState(Some(i), [])
    else if IsBarcode(ratio) then RunState(st.start, st.run + [ratio])
    else RunState(None, [])
  }

  /** The loop variables before index i. */
  function StateAt(ratios: seq<real>, i: nat): RunState
    requires i <= |ratios|
  {
    if i == 0 then RunState(None, [])
    else Advance(StateAt(ratios, i - 1), i - 1, ratios[i - 1])
  }

  ghost predicate ClosesAt(ratios: seq<real>, i: nat)
    requires i < |ratios|
  {
    Closes(StateAt(ratios, i), ratios[i])
  }

  /** The answer of the loop from index i on. */
  function RunFrom(ratios: seq<real>, i: nat): Option<(nat, seq<real>)>
    requires i <= |ratios|
    decreases |ratios| - i
  {
    if i == |ratios| then None
    else
      var st := StateAt(ratios, i);
      if Closes(st, ratios[i]) then Some((st.start.value, st.run))
      else RunFrom(ratios, i + 1)
  }

  function RunOf(ratios: seq<real>): Option<(nat, seq<real>)>
  {
    RunFrom(ratios, 0)
  }

  /** find_run: None when the loop ends without a closed run. */
  method FindRun(ratios: seq<real>) returns (found: Option<(nat, seq<real>)>)
    ensures found == RunOf(ratios)
  {
    var runStart: Option<nat> := None;
    var run: seq<real> := [];
    var i := 0;
    while i < |ratios|
      invariant i <= |ratios|
      invariant RunState(runStart, run) == StateAt(ratios, i)
      invariant RunOf(ratios) == RunFrom(ratios, i)
    {
      var ratio := ratios[i];
      if runStart.None? {
        if IsWhite(ratio) {
          runStart := Some(i);
        }
      } else {
        var isBar := IsBarcode(ratio);
        if IsWhite(ratio) && |run| >= 15 && |run| <= 25 {
          return Some((runStart.value, run));
        } else if IsWhite(ratio) {
          runStart := Some(i);
          run := [];
        } else if isBar {
          run := run + [ratio];
        } else {
          runStart := None;
          run := [];
        }
      }
      i := i + 1;
    }
    return None;
  }

  /** A barcode window: a white ratio at s, 15 to 25 bar ratios, and a white
      ratio at e. */
  ghost predicate Window(ratios: seq<real>, s: nat, e: nat)
  {
    s < e < |ratios| && IsWhite(ratios[s]) && IsWhite(ratios[e]) && 15 <= e - s - 1 <= 25
    && forall k :: s < k < e ==> IsBarcode(ratios[k])
  }

  /** An open run started at a white ratio and holds every ratio since, all
      in the bar band; with no open run there are no gathered ratios. */
  ghost predicate Shaped(ratios: seq<real>, i: nat, st: RunState)
    requires i <= |ratios|
  {
    (st.start.None? ==> st.run == [])
    && (st.start.Some? ==>
          var s := st.start.value;
          s < i && IsWhite(ratios[s]) && s + 1 + |st.run| == i && st.run == ratios[s + 1..i]
          && forall k :: s < k < i ==> IsBarcode(ratios[k]))
  }

  /** Each pass of the loop keeps the shape. */
  lemma AdvanceShaped(ratios: seq<real>, i: nat, st: RunState)
    requires i < |ratios| && Shaped(ratios, i, st)
    ensures Shaped(ratios, i + 1, Advance(st, i, ratios[i]))
  {
    var ratio := ratios[i];
    if st.start.Some? && !IsWhite(ratio) && IsBarcode(ratio) {
      var s := st.start.value;
      assert ratios[s + 1..i + 1] == ratios[s + 1..i] + [ratio];
      assert forall k :: s < k < i + 1 ==> IsBarcode(ratios[k]) by {
        forall k | s < k < i + 1
          ensures IsBarcode(ratios[k])
        {
          if k == i {
            assert ratios[k] == ratio;
          }
        }
      }
    }
  }

  lemma {:induction false} StateShape(ratios: seq<real>, i: nat)
    requires i <= |ratios|
    ensures Shaped(ratios, i, StateAt(ratios, i))
  {
    if i > 0 {
      StateShape(ratios, i - 1);
      AdvanceShaped(ratios, i - 1, StateAt(ratios, i - 1));
    }
  }

  /** The loop returns at its first closing index, or None when there is none. */
  lemma {:induction false} RunFromFirst(ratios: seq<real>, i: nat)
    requires i <= |ratios|
    ensures RunFrom(ratios, i).None? <==> forall c :: i <= c < |ratios| ==> !ClosesAt(ratios, c)
    ensures RunFrom(ratios, i).Some? ==>
      exists c :: (i <= c < |ratios| && ClosesAt(ratios, c)
        && RunFrom(ratios, i).value == (StateAt(ratios, c).start.value, StateAt(ratios, c).run)
        && forall j :: i <= j < c ==> !ClosesAt(ratios, j))
    decreases |ratios| - i
  {
    if i < |ratios| && !ClosesAt(ratios, i) {
      RunFromFirst(ratios, i + 1);
      if RunFrom(ratios, i).Some? {
        var c :| i + 1 <= c < |ratios| && ClosesAt(ratios, c)
          && RunFrom(ratios, i + 1).value == (StateAt(ratios, c).start.value, StateAt(ratios, c).run)
          && forall j :: i + 1 <= j < c ==> !ClosesAt(ratios, j);
        assert forall j :: i <= j < c ==> !ClosesAt(ratios, j);
      }
    }
  }

  /** Through a window, with nothing closed before its end, the run opened
      at s holds every ratio since. */
  lemma {:induction false} WindowState(ratios: seq<real>, s: nat, e: nat, k: nat)
    requires Window(ratios, s, e) && s < k <= e
    requires forall j :: 0 <= j < e ==> !ClosesAt(ratios, j)
    ensures StateAt(ratios, k) == RunState(Some(s), ratios[s + 1..k])
  {
    if k == s + 1 {
      StateShape(ratios, s);
      assert !ClosesAt(ratios, s);
    } else {
      WindowState(ratios, s, e, k - 1);
      assert IsBarcode(ratios[k - 1]);
      assert ratios[s + 1..k] == ratios[s + 1..k - 1] + [ratios[k - 1]];
    }
  }

  /** find_run answers exactly the windows: None when the line has none, and
      otherwise the window that ends first, with the bar ratios inside it. */
  lemma FindRunWindows(ratios: seq<real>)
    ensures RunOf(ratios).None? <==> forall s: nat, e: nat :: !Window(ratios, s, e)
    ensures RunOf(ratios).Some? ==>
      var (s, run) := RunOf(ratios).value;
      var e := s + 1 + |run|;
      Window(ratios, s, e) && run == ratios[s + 1..e]
      && forall s': nat, e': nat :: Window(ratios, s', e') ==> e <= e'
  {
    RunFromFirst(ratios, 0);
    forall s: nat, e: nat | Window(ratios, s, e)
      ensures exists c :: 0 <= c <= e && ClosesAt(ratios, c)
    {
      var c := CloseWithin(ratios, s, e);
    }
    if RunOf(ratios).Some? {
      var c :| 0 <= c < |ratios| && ClosesAt(ratios, c)
        && RunOf(ratios).value == (StateAt(ratios, c).start.value, StateAt(ratios, c).run)
        && forall j :: 0 <= j < c ==> !ClosesAt(ratios, j);
      FirstWindow(ratios, c);
    }
  }

  /** Every window closes a run at or before its end. */
  lemma CloseWithin(ratios: seq<real>, s: nat, e: nat) returns (c: nat)
    requires Window(ratios, s, e)
    ensures c <= e && ClosesAt(ratios, c)
  {
    if forall j :: 0 <= j < e ==> !ClosesAt(ratios, j) {
      WindowState(ratios, s, e, e);
      c := e;
    } else {
      c :| 0 <= c < e && ClosesAt(ratios, c);
    }
  }

  /** The first closing index ends a window, and no window ends before it. */
  lemma FirstWindow(ratios: seq<real>, c: nat)
    requires c < |ratios| && ClosesAt(ratios, c)
    requires forall j :: 0 <= j < c ==> !ClosesAt(ratios, j)
    ensures
      var st := StateAt(ratios, c);
      var s := st.start.value;
      s + 1 + |st.run| == c && Window(ratios, s, c) && st.run == ratios[s + 1..c]
      && forall s': nat, e': nat :: Window(ratios, s', e') ==> c <= e'
  {
    StateShape(ratios, c);
    forall s': nat, e': nat | Window(ratios, s', e')
      ensures c <= e'
    {
      var c' := CloseWithin(ratios, s', e');
    }
  }

  // ---------------------------------------------------------------------
  // get_groups

  /** The group lengths `(3,) + (4,) * 6 + (5,) + (4,) * 6 + (3,)`. */
  const GROUPS: seq<nat> := [3] + seq(6, _ => 4) + [5] + seq(6, _ => 4) + [3]

  /** The tuple is the EAN-13 layout the JavaScript decoder uses. */
  lemma GroupsLayout()
    ensures GROUPS == Sections.EAN_GROUPS && Sections.MAX_SECTIONS == 59
  {
    Sections.EanGroupsTotal();
  }

  /** Every group gets its full length exactly when 59 sections are there. */
  lemma GroupsFull(sections: seq<Sections.Section>)
    ensures (forall k :: 0 <= k < 15 ==> |Sections.GroupsOf(sections)[k]| == GROUPS[k])
      <==> |sections| >= 59
  {
    GroupsLayout();
    Sections.GroupsShape(sections);
    if |sections| < 59 {
      Sections.GroupIs(sections, 14);
      Sections.StartNext(14);
      assert Sections.EAN_GROUPS[..15] == Sections.EAN_GROUPS;
      assert |Sections.GroupsOf(sections)[14]| < GROUPS[14];
    }
  }

  /** One pass of get_groups' loop appends group g and moves past it. */
  lemma GroupStep(sections: seq<Sections.Section>, groups: seq<seq<nat>>, g: nat, i: nat)
    requires g < 15 && groups == Sections.GroupsOf(sections) && i == Sections.Start(g)
    ensures GROUPS == Sections.EAN_GROUPS && |GROUPS| == 15
    ensures g < |groups| && Sections.Start(g + 1) == i + GROUPS[g]
    ensures groups[..g + 1] == groups[..g] + [Sections.Widths(Sections.Slice(sections, i, i + GROUPS[g]))]
  {
    GroupsLayout();
    Sections.StartNext(g);
    var prefix := groups[..g + 1];
    Sections.Snoc(prefix);
    Sections.PrefixSplit(groups, g, g + 1);
    assert prefix[..g] == groups[..g] && prefix[g] == groups[g];
    assert groups[g] == Sections.Group(sections, g);
    assert GROUPS[g] == Sections.EAN_GROUPS[g];
  }

  /** get_groups: the widths of the 15 groups, taken in order; the closing
      assertion fails unless every group got its full length. */
  method GetGroups(sections: seq<Sections.Section>) returns (r: Result<seq<seq<nat>>>)
    ensures r.Ok? <==> |sections| >= 59
    ensures r.Ok? ==> r.value == Sections.GroupsOf(sections)
    ensures r.Err? ==> r.error == "AssertionError"
  {
    GroupsLayout();
    ghost var groups := Sections.GroupsOf(sections);
    var output: seq<seq<nat>> := [];
    var i := 0;
    for g := 0 to |GROUPS|
      invariant i == Sections.Start(g)
      invariant output == groups[..g]
    {
      var widths := Sections.Widths(Sections.Slice(sections, i, i + GROUPS[g]));
      GroupStep(sections, groups, g, i);
      output := output + [widths];
      i := i + GROUPS[g];
    }
    assert output == groups;
    GroupsFull(sections);
    if |output| == |GROUPS| && forall k :: 0 <= k < |GROUPS| ==> |output[k]| == GROUPS[k] {
      r := Ok(output);
    } else {
      r := Err("AssertionError");
    }
  }

  // ---------------------------------------------------------------------
  // The digit strings

  /** The `flip` dictionary. */
  function FlipBit(c: char): char
    requires c == '0' || c == '1'
  {
    if c == '0' then '1' else '0'
  }

  /** all_strings: (odd, reversed complement, complement). */
  function AllStrings(odd: string): (string, string, string)
    requires BarConst.Binary(odd)
  {
    var even := seq(|odd|, i requires 0 <= i < |odd| => FlipBit(odd[i]));
    (odd, seq(|even|, i requires 0 <= i < |even| => even[|even| - 1 - i]), even)
  }

  /** The third string complements the first bit for bit and the second is
      the third read backwards: the same three strings allStrings builds. */
  lemma AllStringsTriple(odd: string)
    requires BarConst.Binary(odd)
    ensures AllStrings(odd).0 == odd
    ensures BarConst.Binary(AllStrings(odd).2) && BarConst.OddToRight(AllStrings(odd).2) == odd
    ensures AllStrings(odd).1 == BarConst.ReverseString(AllStrings(odd).2)
    ensures BarConst.Ones(AllStrings(odd).2) == |odd| - BarConst.Ones(odd)
    ensures [AllStrings(odd).0, AllStrings(odd).1, AllStrings(odd).2] == BarConst.AllStrings(odd)
  {
    var (a, b, c) := AllStrings(odd);
    assert c == BarConst.OddToRight(odd);
    assert b == BarConst.ReverseString(c);
    BarConst.OddToRightInvolutive(odd);
    BarConst.OnesComplement(odd);
  }


  /** The list `ODD_STRINGS`. */
  const ODD_STRINGS: seq<string> := [
    "0001101",
    "0011001",
    "0010011",
    "0111101",
    "0100011",
    "0110001",
    "0101111",
    "0111011",
    "0110111",
    "0001011"
  ]

  /** The list holds ten strings (the module-load assertion holds), the
      number set A string of digit i at index i. */
  lemma OddList()
    ensures |ODD_STRINGS| == 10
    ensures forall d: BarConst.Digit :: ODD_STRINGS[d] == BarConst.OddKey(d) && BarConst.Binary(ODD_STRINGS[d])
  {
    BarConst.OddLiterals();
  }

  /** `DIGIT_TO_STRINGS`: each digit with the three strings of its odd string. */
  const DIGIT_TO_STRINGS: seq<(BarConst.Digit, (string, string, string))> := Enumerate(ODD_STRINGS)

  /** `[(i, all_strings(odd)) for i, odd in enumerate(odds)]`. */
  function Enumerate(odds: seq<string>): (r: seq<(BarConst.Digit, (string, string, string))>)
    requires |odds| <= 10 && forall i :: 0 <= i < |odds| ==> BarConst.Binary(odds[i])
    ensures |r| == |odds| && forall i :: 0 <= i < |odds| ==> r[i] == (i, AllStrings(odds[i]))
  {
    seq(|odds|, i requires 0 <= i < |odds| => (i, AllStrings(odds[i])))
  }

  /** Member j of a three-string tuple. */
  function Pick(t: (string, string, string), j: nat): string
  {
    if j == 0 then t.0 else if j == 1 then t.1 else t.2
  }

  /** The comprehension's (string, digit) pairs, digit by digit, in tuple order. */
  function Pairs(table: seq<(BarConst.Digit, (string, string, string))>): seq<(string, BarConst.Digit)>
  {
    if table == [] then []
    else
      var d, strings := table[0].0, table[0].1;
      [(strings.0, d), (strings.1, d), (strings.2, d)] + Pairs(table[1..])
  }

  /** Pair 3i + j is string j of row i. */
  lemma {:induction false} PairsAt(table: seq<(BarConst.Digit, (string, string, string))>, i: nat, j: nat)
    requires i < |table| && j < 3
    ensures |Pairs(table)| == 3 * |table|
    ensures Pairs(table)[3 * i + j] == (Pick(table[i].1, j), table[i].0)
  {
    PairsLength(table);
    if i > 0 {
      PairsAt(table[1..], i - 1, j);
    }
  }

  lemma {:induction false} PairsLength(table: seq<(BarConst.Digit, (string, string, string))>)
    ensures |Pairs(table)| == 3 * |table|
  {
    if table != [] {
      PairsLength(table[1..]);
    }
  }

  const LOOKUP_ENTRIES: seq<(string, BarConst.Digit)> := Pairs(DIGIT_TO_STRINGS)

  /** `DIGIT_LOOKUP`: a later pair would overwrite an earlier one. */
  const DIGIT_LOOKUP: map<string, BarConst.Digit> := BarConst.MapOf(LOOKUP_ENTRIES)

  const ODD_SET: set<string> := set odd | odd in ODD_STRINGS

  /** Table j of the JavaScript decoder: A (0), B (1) or C (2). */
  function Key(j: nat, d: BarConst.Digit): string
  {
    if j == 0 then BarConst.OddKey(d) else if j == 1 then BarConst.EvenKey(d) else BarConst.RightKey(d)
  }

  function Table(j: nat): map<string, BarConst.Digit>
  {
    if j == 0 then BarConst.ODD_STRINGS else if j == 1 then BarConst.LEFT_EVEN_STRINGS else BarConst.RIGHT_STRINGS
  }

  /** Row d of `DIGIT_TO_STRINGS` is digit d with its A, B and C strings. */
  lemma DigitToStringsAt(d: BarConst.Digit)
    ensures |DIGIT_TO_STRINGS| == 10
    ensures DIGIT_TO_STRINGS[d] == (d, (BarConst.OddKey(d), BarConst.EvenKey(d), BarConst.RightKey(d)))
  {
    OddList();
    AllStringsTriple(ODD_STRINGS[d]);
    BarConst.AllStringsTables(d);
  }

  /** Rows of a digit's three keys give the interleaved entries. */
  lemma PairsInterleaved(table: seq<(BarConst.Digit, (string, string, string))>)
    requires |table| == 10
    requires forall d: BarConst.Digit :: table[d] == (d, (BarConst.OddKey(d), BarConst.EvenKey(d), BarConst.RightKey(d)))
    ensures Interleaved(Pairs(table))
  {
    PairsLength(table);
    forall j: nat, d: BarConst.Digit | j < 3
      ensures Pairs(table)[3 * d + j] == (Key(j, d), d)
    {
      PairsAt(table, d, j);
      PickKey(table[d], d, j);
    }
  }

  lemma PickKey(row: (BarConst.Digit, (string, string, string)), d: BarConst.Digit, j: nat)
    requires j < 3 && row == (d, (BarConst.OddKey(d), BarConst.EvenKey(d), BarConst.RightKey(d)))
    ensures (Pick(row.1, j), row.0) == (Key(j, d), d)
  {
  }

  lemma KeyInTable(j: nat, d: BarConst.Digit)
    requires j < 3
    ensures Key(j, d) in Table(j) && Table(j)[Key(j, d)] == d
  {
    if j == 0 {
      BarConst.OddTable();
    } else if j == 1 {
      BarConst.LeftEvenTable();
    } else {
      BarConst.RightTable();
    }
  }

  /** Entry 3d + j is digit d's key in table j, for all thirty entries. */
  ghost predicate Interleaved(entries: seq<(string, BarConst.Digit)>)
  {
    |entries| == 30 && forall j: nat, d: BarConst.Digit :: j < 3 ==> entries[3 * d + j] == (Key(j, d), d)
  }

  lemma LookupEntries()
    ensures Interleaved(LOOKUP_ENTRIES)
  {
    forall d: BarConst.Digit
      ensures DIGIT_TO_STRINGS[d] == (d, (BarConst.OddKey(d), BarConst.EvenKey(d), BarConst.RightKey(d)))
    {
      DigitToStringsAt(d);
    }
    DigitToStringsAt(0);
    PairsInterleaved(DIGIT_TO_STRINGS);
  }

  /** The thirty strings are pairwise different. */
  lemma InterleavedDistinct(entries: seq<(string, BarConst.Digit)>)
    requires Interleaved(entries)
    ensures BarConst.DistinctKeys(entries)
  {
    forall a, b | 0 <= a < b < 30
      ensures entries[a].0 != entries[b].0
    {
      var i, d := InterleavedAt(entries, a);
      var j, e := InterleavedAt(entries, b);
      KeysDiffer(i, d, j, e);
    }
  }

  /** Entry k of an interleaved list is the key of digit d in table j, where k == 3d + j. */
  lemma InterleavedAt(entries: seq<(string, BarConst.Digit)>, k: nat) returns (j: nat, d: BarConst.Digit)
    requires Interleaved(entries) && k < 30
    ensures k == 3 * d + j && j < 3
    ensures entries[k] == (Key(j, d), d)
  {
    j, d := EntryIndex(k);
    assert entries[3 * d + j] == (Key(j, d), d);
  }

  /** Different (table, digit) pairs have different keys. */
  lemma KeysDiffer(i: nat, d: BarConst.Digit, j: nat, e: BarConst.Digit)
    requires i < 3 && j < 3 && (i != j || d != e)
    ensures Key(i, d) != Key(j, e)
  {
    KeyInTable(i, d);
    KeyInTable(j, e);
    BarConst.TablesDisjoint(Key(i, d));
  }

  lemma InterleavedTable(entries: seq<(string, BarConst.Digit)>)
    requires Interleaved(entries)
    ensures |BarConst.MapOf(entries)| == 30
    ensures forall j: nat, d: BarConst.Digit :: j < 3 ==>
      Key(j, d) in BarConst.MapOf(entries) && BarConst.MapOf(entries)[Key(j, d)] == d
  {
    InterleavedDistinct(entries);
    BarConst.MapOfSize(entries);
    forall j: nat, d: BarConst.Digit | j < 3
      ensures Key(j, d) in BarConst.MapOf(entries) && BarConst.MapOf(entries)[Key(j, d)] == d
    {
      BarConst.MapOfAt(entries, 3 * d + j);
    }
  }

  lemma InterleavedKeys(entries: seq<(string, BarConst.Digit)>, s: string)
    requires Interleaved(entries)
    ensures s in BarConst.MapOf(entries) <==> exists j: nat, d: BarConst.Digit :: j < 3 && s == Key(j, d)
  {
    BarConst.MapOfKeys(entries, s);
    if s in BarConst.MapOf(entries) {
      var k :| 0 <= k < 30 && entries[k].0 == s;
      var j, d := InterleavedAt(entries, k);
      assert j < 3 && s == Key(j, d);
    } else {
      forall j: nat, d: BarConst.Digit | j < 3
        ensures s != Key(j, d)
      {
        assert entries[3 * d + j] == (Key(j, d), d);
      }
    }
  }

  /** Entry k is string k % 3 of digit k / 3. */
  lemma EntryIndex(k: nat) returns (j: nat, d: BarConst.Digit)
    requires k < 30
    ensures k == 3 * d + j && j < 3
  {
    j, d := k % 3, k / 3;
  }

  /** The lookup has 30 keys (the module-load assertion holds): each digit's
      A, B and C strings, each mapped to its digit. */
  lemma DigitLookupTable()
    ensures |DIGIT_LOOKUP| == 30
    ensures forall j: nat, d: BarConst.Digit :: j < 3 ==>
      Key(j, d) in DIGIT_LOOKUP && DIGIT_LOOKUP[Key(j, d)] == d
  {
    LookupEntries();
    InterleavedTable(LOOKUP_ENTRIES);
  }

  /** No other string is a key. */
  lemma DigitLookupKeys(s: string)
    ensures s in DIGIT_LOOKUP <==> exists j: nat, d: BarConst.Digit :: j < 3 && s == Key(j, d)
  {
    LookupEntries();
    InterleavedKeys(LOOKUP_ENTRIES, s);
  }

  /** The odd set holds the keys of number set A. */
  lemma OddSetKeys(s: string)
    ensures s in ODD_SET <==> s in BarConst.ODD_STRINGS
  {
    OddList();
    BarConst.OddKeys(s);
    if s in ODD_SET {
      var d :| 0 <= d < 10 && ODD_STRINGS[d] == s;
      assert s == BarConst.OddKey(d);
    }
  }

  /** The leading-digit dictionary, entry by entry. */
  const PREFIX_ENTRIES: seq<(string, BarConst.Digit)> := [
    ("111111", 0),
    ("110100", 1),
    ("110010", 2),
    ("110001", 3),
    ("101100", 4),
    ("100110", 5),
    ("100011", 6),
    ("101010", 7),
    ("101001", 8),
    ("100101", 9)
  ]

  const ODD_EVEN_PREFIX: map<string, BarConst.Digit> := BarConst.MapOf(PREFIX_ENTRIES)

  /** It is the table the JavaScript decoder uses: the same ten pairs in the
      same order. */
  lemma PrefixAgrees()
    ensures ODD_EVEN_PREFIX == BarConst.ODD_EVEN_PREFIX
    ensures |ODD_EVEN_PREFIX| == 10
  {
    assert PREFIX_ENTRIES == BarConst.PREFIX_ENTRIES;
    BarConst.PrefixTable();
  }

  // ---------------------------------------------------------------------
  // decode_digit

  /** `int(round(len_ / mybar))`: the more likely rounding target of the
      JavaScript reader. */
  function RoundedWidth(x: nat, myBar: real): (w: nat)
    requires myBar > 0.0
    ensures w == Digits.Choice(x, myBar)[0]
  {
    assert x as real / myBar >= 0.0;
    Digits.Round(x as real / myBar)
  }

  function RoundedWidths(lengths: seq<nat>, myBar: real): (w: seq<nat>)
    requires myBar > 0.0
    ensures |w| == |lengths|
  {
    seq(|lengths|, i requires 0 <= i < |lengths| => RoundedWidth(lengths[i], myBar))
  }

  /** The module width of one digit: a seventh of its total. */
  function ModuleWidth(lengths: seq<nat>): real
  {
    Total(lengths) as real / 7.0
  }

  /** The bit string decode_digit looks up: zip stops after four runs, as
      the JavaScript template does. */
  function DigitString(lengths: seq<nat>, isLeft: bool): string
    requires ModuleWidth(lengths) > 0.0
  {
    Digits.WidthsToString(RoundedWidths(lengths, ModuleWidth(lengths)), isLeft)
  }

  /** decode_digit: the digit and whether its string is in number set A, or
      the assertion or key error that stops it. */
  function DecodeDigit(bar: real, lengths: seq<nat>, isLeft: bool): (r: Result<(BarConst.Digit, bool)>)
    requires bar > 0.0
    ensures r.Ok? ==> |lengths| > 0 && ModuleWidth(lengths) > 0.0
  {
    var tot := Total(lengths);
    if Digits.Round(tot as real / bar) != 7 then Err("failed first bar check")
    else
      Digits.SevenModulesPositive(tot, bar);
      if Total(RoundedWidths(lengths, ModuleWidth(lengths))) != 7 then Err("failed second bar check")
      else
        LookupString(DigitString(lengths, isLeft))
  }

  /** `DIGIT_LOOKUP[string], (string in ODD_SET)`. */
  function LookupString(bits: string): Result<(BarConst.Digit, bool)>
  {
    if bits !in DIGIT_LOOKUP then Err("KeyError")
    else Ok((DIGIT_LOOKUP[bits], bits in ODD_SET))
  }

  /** A decoded digit comes from a group of seven bar widths whose single
      roundings sum to 7 modules and spell one of the digit's three strings;
      the parity flag says whether that string is the number set A one. A
      key error means the string is none of the thirty. */
  lemma DecodeDigitSound(bar: real, lengths: seq<nat>, isLeft: bool)
    requires bar > 0.0
    ensures var r := DecodeDigit(bar, lengths, isLeft);
      (r.Ok? || r.error == "KeyError") ==>
        Digits.Round(Total(lengths) as real / bar) == 7
        && ModuleWidth(lengths) > 0.0
        && Total(RoundedWidths(lengths, ModuleWidth(lengths))) == 7
    ensures var r := DecodeDigit(bar, lengths, isLeft);
      r.Ok? ==>
        var (d, odd) := r.value;
        var s := DigitString(lengths, isLeft);
        (odd <==> s == BarConst.OddKey(d))
        && (!odd ==> s == BarConst.EvenKey(d) || s == BarConst.RightKey(d))
    ensures var r := DecodeDigit(bar, lengths, isLeft);
      r == Err("KeyError") ==>
        forall j: nat, d: BarConst.Digit :: j < 3 ==> DigitString(lengths, isLeft) != Key(j, d)
  {
    var r := DecodeDigit(bar, lengths, isLeft);
    if r.Ok? || r.error == "KeyError" {
      Digits.SevenModulesPositive(Total(lengths), bar);
      var s := DigitString(lengths, isLeft);
      assert r == LookupString(s);
      LookupStringSound(s);
    }
  }

  /** The lookup answers the digit whose string it is, odd exactly for the
      number set A string, and a key error for any other string. */
  lemma LookupStringSound(bits: string)
    ensures LookupString(bits) == Err("KeyError") <==>
      forall j: nat, d: BarConst.Digit :: j < 3 ==> bits != Key(j, d)
    ensures LookupString(bits).Ok? ==>
      var (d, odd) := LookupString(bits).value;
      (odd <==> bits == BarConst.OddKey(d))
      && (!odd ==> bits == BarConst.EvenKey(d) || bits == BarConst.RightKey(d))
  {
    DigitLookupKeys(bits);
    if bits in DIGIT_LOOKUP {
      var j: nat, d: BarConst.Digit :| j < 3 && bits == Key(j, d);
      DigitLookupTable();
      assert LookupString(bits) == Ok((d, bits in ODD_SET));
      OddSetKeys(bits);
      BarConst.OddKeys(bits);
      if j == 0 {
        assert bits in ODD_SET;
      } else {
        KeysDiffer(0, d, j, d);
        if bits in ODD_SET {
          var e: BarConst.Digit :| bits == BarConst.OddKey(e);
          KeysDiffer(0, e, j, d);
          assert false;
        }
        assert bits == BarConst.EvenKey(d) || bits == BarConst.RightKey(d);
      }
    }
  }


  /** Where the JavaScript reader's tables know the string, the digit
      decode_digit returns is one of its candidates: the single rounding is
      the first of each width's rounding targets. */
  lemma DecodeDigitAgrees(bar: real, lengths: seq<nat>, isLeft: bool)
    requires bar > 0.0
    ensures var r := DecodeDigit(bar, lengths, isLeft);
      r.Ok? && Digits.Lookup(Digits.TABLES, DigitString(lengths, isLeft), isLeft).Some? ==>
        Digits.Candidate(r.value.0, r.value.1) in Digits.DecodeDigit(bar, lengths, Digits.TABLES, isLeft)
  {
    var r := DecodeDigit(bar, lengths, isLeft);
    if r.Ok? && Digits.Lookup(Digits.TABLES, DigitString(lengths, isLeft), isLeft).Some? {
      DecodeDigitSound(bar, lengths, isLeft);
      var c := Digits.Candidate(r.value.0, r.value.1);
      SpellsDecoded(DigitString(lengths, isLeft), isLeft, r.value.0, r.value.1);
      RoundedCandidate(bar, lengths, Digits.TABLES, isLeft, c);
    }
  }

  /** A candidate spelled by the single roundings, in a group that passes
      both bar checks, is a candidate of the JavaScript reader. */
  lemma RoundedCandidate(bar: real, lengths: seq<nat>, t: Digits.Tables, isLeft: bool, c: Digits.Candidate)
    requires bar > 0.0 && Digits.Round(Total(lengths) as real / bar) == 7
    requires |lengths| > 0 && ModuleWidth(lengths) > 0.0
    requires Total(RoundedWidths(lengths, ModuleWidth(lengths))) == 7
    requires Digits.Spells(t, RoundedWidths(lengths, ModuleWidth(lengths)), isLeft, c)
    ensures c in Digits.DecodeDigit(bar, lengths, t, isLeft)
  {
    var myBar := ModuleWidth(lengths);
    RoundedRowChosen(lengths, myBar);
    Digits.LikelyDigitsMember(lengths, myBar, t, isLeft, c);
  }

  /** The single roundings are one of the rows likelyDigits tries. */
  lemma RoundedRowChosen(lengths: seq<nat>, myBar: real)
    requires myBar > 0.0 && |lengths| > 0
    ensures RoundedWidths(lengths, myBar) in Util.Product(Digits.Choices(lengths, myBar))
  {
    Util.ProductMember(Digits.Choices(lengths, myBar), RoundedWidths(lengths, myBar));
  }

  /** A hit of the JavaScript tables on a string of digit d names d, with
      the parity that says whether the string is d's number set A string. */
  lemma SpellsDecoded(s: string, isLeft: bool, d: BarConst.Digit, odd: bool)
    requires Digits.Lookup(Digits.TABLES, s, isLeft).Some?
    requires (odd <==> s == BarConst.OddKey(d)) && (!odd ==> s == BarConst.EvenKey(d) || s == BarConst.RightKey(d))
    ensures Digits.Lookup(Digits.TABLES, s, isLeft) == Some(Digits.Candidate(d, odd))
  {
    var c := Digits.Lookup(Digits.TABLES, s, isLeft).value;
    Digits.LookupHit(s, isLeft);
    BarConst.OddTable();
    BarConst.LeftEvenTable();
    BarConst.RightTable();
    BarConst.TablesDisjoint(s);
  }
}
