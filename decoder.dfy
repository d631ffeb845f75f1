/** barcode.js, the decoder proper: `checkDigit`, the parity search for the
    hidden leading digit, the choice of a row and its `D-DDDDDD-DDDDDD`
    text (`decode`), the entry point `lineToBarcode`, and the unused helper
    `firstAndLast`. */
module Decoder {
  import opened Wrappers
  import opened Util
  import opened BarConst
  import opened Otsu
  import opened Preamble
  import opened Sections
  import opened Digits

  /** What decode and lineToBarcode return: `{decoded}`, or `{error}` with
      `details` for missing digits. */
  datatype Answer = Decoded(decoded: string) | Failed(error: string, details: Option<seq<nat>>)

  // ---------------------------------------------------------------------
  // firstAndLast

  /** The first and the last index whose element satisfies p, both absent
      (undefined) when none does. */
  method FirstAndLast<T>(items: seq<T>, p: T -> bool) returns (first: Option<nat>, last: Option<nat>)
    ensures first.None? <==> forall i :: 0 <= i < |items| ==> !p(items[i])
    ensures first.None? <==> last.None?
    ensures first.Some? ==>
      first.value < |items| && p(items[first.value]) && forall i :: 0 <= i < first.value ==> !p(items[i])
    ensures last.Some? ==>
      last.value < |items| && p(items[last.value]) && forall i :: last.value < i < |items| ==> !p(items[i])
  {
    first, last := None, None;
    for i := 0 to |items|
      invariant first.None? <==> forall k :: 0 <= k < i ==> !p(items[k])
      invariant first.None? <==> last.None?
      invariant first.Some? ==>
        first.value < i && p(items[first.value]) && forall k :: 0 <= k < first.value ==> !p(items[k])
      invariant last.Some? ==>
        last.value < i && p(items[last.value]) && forall k :: last.value < k < i ==> !p(items[k])
    {
      if p(items[i]) {
        if first.None? {
          first := Some(i);
        }
        last := Some(i);
      }
    }
  }

  // ---------------------------------------------------------------------
  // checkDigit

  /** The weight of position i: 1 at even positions, 3 at odd ones. */
  function Weight(i: nat): int
  {
    if i % 2 == 0 then 1 else 3
  }

  /** The weighted sum of a row of digits. */
  function Weighted(s: seq<int>): int
  {
    if s == [] then 0 else Weighted(s[..|s| - 1]) + Weight(|s| - 1) * s[|s| - 1]
  }

  /** checkDigit's verdict: the row is non-empty and its last digit is the
      check digit of the rest. */
  predicate CheckOk(digits: seq<Digit>)
  {
    |digits| > 0 && (10 - Weighted(digits[..|digits| - 1]) % 10) % 10 == digits[|digits| - 1]
  }

  /** The check digit test of EAN-13 (section 7.9 of the GS1 General
      Specifications): a row passes exactly when its weighted sum, the last
      digit counted once, is a multiple of 10. */
  lemma CheckOkMod10(digits: seq<Digit>)
    requires |digits| > 0
    ensures CheckOk(digits) <==> (Weighted(digits[..|digits| - 1]) + digits[|digits| - 1]) % 10 == 0
  {
    var w, last := Weighted(digits[..|digits| - 1]), digits[|digits| - 1];
    var q, r := w / 10, w % 10;
    if r == 0 {
      DivMod(w + last, 10, q, last);
    } else if r + last >= 10 {
      DivMod(10 - r, 10, 0, 10 - r);
      DivMod(w + last, 10, q + 1, r + last - 10);
    } else {
      DivMod(10 - r, 10, 0, 10 - r);
      DivMod(w + last, 10, q, r + last);
    }
  }

  /** Sums every digit but the last (`slice(0, -1)`) with weights 1, 3, 1,
      ... and compares the resulting check digit with the last; an empty
      row fails. */
  method CheckDigit(digits: seq<Digit>) returns (ok: bool)
    ensures ok == CheckOk(digits)
  {
    var body := if |digits| == 0 then [] else digits[..|digits| - 1];
    var sum: int := 0;
    for i := 0 to |body|
      invariant sum == Weighted(body[..i])
    {
      assert body[..i + 1][..i] == body[..i];
      sum := sum + if i % 2 == 0 then body[i] as int else 3 * body[i] as int;
    }
    assert body[..|body|] == body;
    var check: int := (10 - sum % 10) % 10;
    ok := |digits| > 0 && check == digits[|digits| - 1];
  }

  // ---------------------------------------------------------------------
  // The parity search

  /** `Number(odd)` of each candidate, joined. */
  function Parities(cands: seq<Candidate>): (s: string)
    ensures |s| == |cands|
  {
    seq(|cands|, i requires 0 <= i < |cands| => if cands[i].odd then '1' else '0')
  }

  /** The digit of each candidate. */
  function DigitsOf(cands: seq<Candidate>): (ds: seq<Digit>)
    ensures |ds| == |cands|
  {
    seq(|cands|, i requires 0 <= i < |cands| => cands[i].digit)
  }

  /** One combination of candidates as a row: the leading digit its first
      six parities stand for, then its own digits; nothing when that
      parity pattern is not in the leading-digit table. */
  function ParityRow(perm: seq<Candidate>, prefix: map<string, Digit>): Option<seq<Digit>>
  {
    var odds := Parities(Slice(perm, 0, 6));
    if odds in prefix then Some([prefix[odds]] + DigitsOf(perm)) else None
  }

  /** `parityPossible`: the rows of the combinations with a known parity
      pattern, in order. */
  function ParityRows(possible: seq<seq<Candidate>>, prefix: map<string, Digit>): seq<seq<Digit>>
  {
    if possible == [] then []
    else ParityRows(possible[..|possible| - 1], prefix) + Found(ParityRow(possible[|possible| - 1], prefix))
  }

  lemma {:induction false} ParityRowsMember(possible: seq<seq<Candidate>>, prefix: map<string, Digit>, row: seq<Digit>)
    ensures row in ParityRows(possible, prefix) <==>
      exists perm :: perm in possible && ParityRow(perm, prefix) == Some(row)
  {
    if possible != [] {
      var init, last := possible[..|possible| - 1], possible[|possible| - 1];
      ParityRowsMember(init, prefix, row);
      assert row in Found(ParityRow(last, prefix)) <==> ParityRow(last, prefix) == Some(row);
      Snoc(possible);
      assert forall perm :: perm in possible <==> perm in init || perm == last;
    }
  }

  /** The loop over all combinations that collects `parityPossible`. */
  method ParityPossible(possible: seq<seq<Candidate>>, prefix: map<string, Digit>) returns (rows: seq<seq<Digit>>)
    ensures rows == ParityRows(possible, prefix)
  {
    rows := [];
    for k := 0 to |possible|
      invariant rows == ParityRows(possible[..k], prefix)
    {
      var perm := possible[k];
      var odds := Parities(Slice(perm, 0, 6));
      if odds in prefix {
        rows := rows + [[prefix[odds]] + DigitsOf(perm)];
      }
      assert possible[..k + 1][..k] == possible[..k];
    }
    assert possible[..|possible|] == possible;
  }

  /** `checkPossible`: the rows that pass checkDigit, in order. */
  function Checked(rows: seq<seq<Digit>>): seq<seq<Digit>>
  {
    if rows == [] then []
    else Checked(rows[..|rows| - 1]) + if CheckOk(rows[|rows| - 1]) then [rows[|rows| - 1]] else []
  }

  lemma {:induction false} CheckedMember(rows: seq<seq<Digit>>, row: seq<Digit>)
    ensures row in Checked(rows) <==> row in rows && CheckOk(row)
  {
    if rows != [] {
      var init := rows[..|rows| - 1];
      CheckedMember(init, row);
      Snoc(rows);
      assert forall r :: r in rows <==> r in init || r == rows[|rows| - 1];
    }
  }

  /** `parityPossible.filter(row => checkDigit(row))`. */
  method CheckPossible(rows: seq<seq<Digit>>) returns (passed: seq<seq<Digit>>)
    ensures passed == Checked(rows)
  {
    passed := [];
    for k := 0 to |rows|
      invariant passed == Checked(rows[..k])
    {
      var ok := CheckDigit(rows[k]);
      if ok {
        passed := passed + [rows[k]];
      }
      assert rows[..k + 1][..k] == rows[..k];
    }
    assert rows[..|rows|] == rows;
  }

  // ---------------------------------------------------------------------
  // The country code

  predicate Leads(row: seq<Digit>, code: int)
  {
    |row| > 0 && row[0] == code
  }

  /** `checkPossible.filter(row => row[0] == likelyCountryCode)`. */
  function Matching(rows: seq<seq<Digit>>, code: int): seq<seq<Digit>>
  {
    if rows == [] then []
    else (if Leads(rows[0], code) then [rows[0]] else []) + Matching(rows[1..], code)
  }

  /** Nothing matches exactly when no row leads with the code; otherwise the
      first match is the first row that does. */
  lemma {:induction false} MatchingFirst(rows: seq<seq<Digit>>, code: int)
    ensures Matching(rows, code) == [] <==> forall i :: 0 <= i < |rows| ==> !Leads(rows[i], code)
    ensures Matching(rows, code) != [] ==>
      exists i :: 0 <= i < |rows| && rows[i] == Matching(rows, code)[0] && Leads(rows[i], code)
        && forall k :: 0 <= k < i ==> !Leads(rows[k], code)
  {
    if rows != [] && !Leads(rows[0], code) {
      var rest := rows[1..];
      MatchingFirst(rest, code);
      if Matching(rest, code) != [] {
        var i :| 0 <= i < |rest| && rest[i] == Matching(rest, code)[0] && Leads(rest[i], code)
          && forall k :: 0 <= k < i ==> !Leads(rest[k], code);
        assert rows[i + 1] == rest[i];
        assert forall k :: 1 <= k < i + 1 ==> rows[k] == rest[k - 1];
      } else {
        assert forall i :: 1 <= i < |rows| ==> rows[i] == rest[i - 1];
      }
    }
  }

  /** `final`: the first row with the likely country code when one is given
      and some row has it, the first row otherwise. */
  function Choose(rows: seq<seq<Digit>>, likely: Option<int>): seq<Digit>
    requires rows != []
  {
    if likely.Some? then
      var matching := Matching(rows, likely.value);
      if matching != [] then matching[0] else rows[0]
    else rows[0]
  }

  /** The chosen row is one of the rows: the first leading with the likely
      code when there is one, else the first row. */
  lemma ChooseCountry(rows: seq<seq<Digit>>, likely: Option<int>)
    requires rows != []
    ensures exists i :: (0 <= i < |rows| && rows[i] == Choose(rows, likely)
      && if likely.Some? && exists j :: 0 <= j < |rows| && Leads(rows[j], likely.value)
         then Leads(rows[i], likely.value) && forall k :: 0 <= k < i ==> !Leads(rows[k], likely.value)
         else i == 0)
  {
    if likely.Some? {
      MatchingFirst(rows, likely.value);
    }
    if likely.Some? && exists j :: 0 <= j < |rows| && Leads(rows[j], likely.value) {
      var code := likely.value;
      var i :| 0 <= i < |rows| && rows[i] == Matching(rows, code)[0] && Leads(rows[i], code)
        && forall k :: 0 <= k < i ==> !Leads(rows[k], code);
      assert rows[i] == Choose(rows, likely);
    } else {
      assert rows[0] == Choose(rows, likely);
    }
  }

  // ---------------------------------------------------------------------
  // The text

  function DigitChar(d: Digit): char
  {
    ('0' as int + d) as char
  }

  /** The digits joined into a string. */
  function Chars(ds: seq<Digit>): (s: string)
    ensures |s| == |ds|
  {
    seq(|ds|, i requires 0 <= i < |ds| => DigitChar(ds[i]))
  }

  /** `[final.slice(0,1), final.slice(1,7), final.slice(7)]`, each joined,
      joined with '-'. */
  function Format(row: seq<Digit>): string
  {
    Chars(Slice(row, 0, 1)) + "-" + Chars(Slice(row, 1, 7)) + "-" + Chars(Slice(row, 7, |row|))
  }

  predicate IsDigitChar(c: char)
  {
    '0' <= c <= '9'
  }

  /** Reads back a `D-DDDDDD-DDDDDD` text. */
  function Parse(s: string): Option<seq<Digit>>
  {
    if |s| == 15 && s[1] == '-' && s[8] == '-'
       && forall i :: 0 <= i < 15 && i != 1 && i != 8 ==> IsDigitChar(s[i])
    then
      var ds := s[..1] + s[2..8] + s[9..];
      Some(seq(13, i requires 0 <= i < 13 => ds[i] as int - '0' as int))
    else None
  }

  /** A 13-digit row reads as fifteen characters, a dash after the first
      digit and after the seventh, and reads back as itself. */
  lemma FormatParse(row: seq<Digit>)
    requires |row| == 13
    ensures var s := Format(row);
      |s| == 15 && s[1] == '-' && s[8] == '-' && Parse(s) == Some(row)
  {
    var s, ds := Format(row), Chars(row);
    assert s == ds[..1] + "-" + ds[1..7] + "-" + ds[7..];
    forall i | 0 <= i < 15 && i != 1 && i != 8
      ensures IsDigitChar(s[i])
    {
      assert s[i] == ds[if i < 1 then i else if i < 8 then i - 1 else i - 2];
    }
    assert s[..1] + s[2..8] + s[9..] == ds;
    assert seq(13, i requires 0 <= i < 13 => ds[i] as int - '0' as int) == row;
  }

  /** Every text that parses is the text of the row it parses to. */
  lemma ParseFormat(s: string)
    requires Parse(s).Some?
    ensures |Parse(s).value| == 13 && Format(Parse(s).value) == s
  {
    var row := Parse(s).value;
    var ds := s[..1] + s[2..8] + s[9..];
    assert Chars(row) == ds;
    assert Slice(row, 0, 1) == row[..1] && Slice(row, 1, 7) == row[1..7] && Slice(row, 7, |row|) == row[7..];
    assert Chars(row[..1]) == ds[..1] && Chars(row[1..7]) == ds[1..7] && Chars(row[7..]) == ds[7..];
    assert s == ds[..1] + "-" + ds[1..7] + "-" + ds[7..];
  }

  // ---------------------------------------------------------------------
  // decode

  /** A list of positive numbers has a positive total. */
  lemma {:induction false} TotalPositive(s: seq<int>)
    requires |s| > 0 && forall x :: x in s ==> x >= 1
    ensures Total(s) >= 1
  {
    var init := s[..|s| - 1];
    forall i | 0 <= i < |init|
      ensures init[i] >= 0
    {
      assert s[i] in s;
    }
    TotalNonNegative(init);
    assert s[|s| - 1] in s;
  }

  /** `barSize`: the mean width in pixels of the sections of the start,
      centre and end guards. */
  function BarSize(groups: seq<seq<nat>>): real
    requires |groups| == 15 && |groups[0]| > 0
  {
    var norm := groups[0] + groups[7] + groups[14];
    Total(norm) as real / |norm| as real
  }

  /** Every width in a group of a proper encoding is at least one pixel. */
  lemma GroupWidthPositive(secs: seq<Section>, i: nat, x: nat)
    requires Runs(secs) && i < 15 && x in GroupsOf(secs)[i]
    ensures x >= 1
  {
    GroupIs(secs, i);
  }

  /** The groups of a non-empty clipped line: the first is non-empty and
      the guard widths have a positive mean. */
  lemma LineGroupsShape(inner: seq<int>)
    requires inner != []
    ensures var g := GroupsOf(SectionsOf(inner));
      |g| == 15 && |g[0]| > 0 && BarSize(g) > 0.0
  {
    var secs := SectionsOf(inner);
    var g := GroupsOf(secs);
    SectionsShape(inner);
    GroupIs(secs, 0);
    StartNext(0);
    assert EAN_GROUPS[..0] == [];
    assert |g[0]| == Min(|secs|, 3) > 0;
    var norm := g[0] + g[7] + g[14];
    forall x | x in norm
      ensures x >= 1
    {
      var i := if x in g[0] then 0 else if x in g[7] then 7 else 14;
      GroupWidthPositive(secs, i, x);
    }
    TotalPositive(norm);
    PositiveRatio(Total(norm), |norm|);
  }

  lemma PositiveRatio(a: int, b: int)
    requires a >= 1 && b >= 1
    ensures a as real / b as real > 0.0
  {
  }

  /** The groups of a clipped line. */
  function LineGroups(inner: seq<int>): (g: seq<seq<nat>>)
    requires inner != []
    ensures |g| == 15 && |g[0]| > 0 && BarSize(g) > 0.0
  {
    LineGroupsShape(inner);
    GroupsOf(SectionsOf(inner))
  }

  /** The candidate lists of the twelve digits: groups 1-6 read with the
      left-half tables, groups 8-13 with the right-half table. */
  function Candidates(groups: seq<seq<nat>>, bar: real, t: Tables): (c: seq<seq<Candidate>>)
    requires |groups| == 15 && bar > 0.0
    ensures |c| == 12
  {
    seq(6, k requires 0 <= k < 6 => DecodeDigit(bar, groups[1 + k], t, true))
    + seq(6, k requires 0 <= k < 6 => DecodeDigit(bar, groups[8 + k], t, false))
  }

  /** The candidate lists of a clipped line. */
  function LineCandidates(inner: seq<int>, t: Tables): seq<seq<Candidate>>
    requires inner != []
  {
    var groups := LineGroups(inner);
    Candidates(groups, BarSize(groups), t)
  }

  /** `digits.map(arr => arr.length)`. */
  function Lengths(cands: seq<seq<Candidate>>): (d: seq<nat>)
    ensures |d| == |cands|
  {
    seq(|cands|, k requires 0 <= k < |cands| => |cands[k]|)
  }

  /** What decode returns once the twelve candidate lists are known: an
      error when a list is empty, when no combination has a known parity
      pattern, or when no such row passes checkDigit; otherwise the text of
      the chosen row. */
  function Resolve(digits: seq<seq<Candidate>>, likely: Option<int>, t: Tables): Answer
  {
    if exists k :: 0 <= k < |digits| && |digits[k]| == 0 then Failed("missing digits", Some(Lengths(digits)))
    else
      var parity := ParityRows(Product(digits), t.prefix);
      if parity == [] then Failed("parity", None)
      else
        var checked := Checked(parity);
        if checked == [] then Failed("check", None)
        else Decoded(Format(Choose(checked, likely)))
  }

  /** What decode returns for the binarised line clipped at pixel0. */
  function DecodeSpec(line: seq<int>, pixel0: nat, likely: Option<int>, t: Tables): Answer
  {
    var inner := Slice(line, pixel0, |line|);
    if inner == [] || inner[0] != 0 then Failed("bad-clip", None)
    else Resolve(LineCandidates(inner, t), likely, t)
  }

  /** The reading half of decode: sections, groups, bar size and the
      candidate lists of the twelve digits. */
  method ReadDigits(inner: seq<int>, t: Tables) returns (digits: seq<seq<Candidate>>)
    requires inner != []
    ensures digits == LineCandidates(inner, t)
  {
    var sections := ScanSections(inner);
    var groups := GetGroups(sections);
    assert groups == LineGroups(inner);
    var normGroups := groups[0] + groups[7] + groups[14];
    var total := Sum(normGroups);
    var barSize := total as real / |normGroups| as real;
    digits := Candidates(groups, barSize, t);
  }

  /** The searching half of decode. */
  method Search(digits: seq<seq<Candidate>>, likely: Option<int>, t: Tables) returns (r: Answer)
    ensures r == Resolve(digits, likely, t)
  {
    if exists k :: 0 <= k < |digits| && |digits[k]| == 0 {
      return Failed("missing digits", Some(Lengths(digits)));
    }
    var possible := Permute(digits);
    var parityPossible := ParityPossible(possible, t.prefix);
    if parityPossible == [] {
      return Failed("parity", None);
    }
    var checkPossible := CheckPossible(parityPossible);
    if checkPossible == [] {
      return Failed("check", None);
    }
    var final := Choose(checkPossible, likely);
    r := Decoded(Format(final));
  }

  /** decode: clip the line, read the twelve digits, search the
      combinations for a parity pattern and a valid check digit, and format
      the chosen row. */
  method Decode(line: seq<int>, pixel0: nat, likely: Option<int>, t: Tables) returns (r: Answer)
    ensures r == DecodeSpec(line, pixel0, likely, t)
  {
    var inner := Slice(line, pixel0, |line|);
    if inner == [] || inner[0] != 0 {
      return Failed("bad-clip", None);
    }
    var digits := ReadDigits(inner, t);
    r := Search(digits, likely, t);
  }

  // ---------------------------------------------------------------------
  // What decode promises

  /** decode reports "bad-clip" exactly when the line has no pixel at
      pixel0 or that pixel is not black. */
  lemma DecodeBadClip(line: seq<int>, pixel0: nat, likely: Option<int>, t: Tables)
    ensures DecodeSpec(line, pixel0, likely, t) == Failed("bad-clip", None) <==>
      pixel0 >= |line| || line[pixel0] != 0
  {
    var inner := Slice(line, pixel0, |line|);
    if pixel0 < |line| {
      assert inner[0] == line[pixel0];
    }
    if inner != [] && inner[0] == 0 {
      ResolveNeverBadClip(LineCandidates(inner, t), likely, t);
    }
  }

  /** The search half of decode has no "bad-clip" answer. */
  lemma ResolveNeverBadClip(digits: seq<seq<Candidate>>, likely: Option<int>, t: Tables)
    ensures Resolve(digits, likely, t) != Failed("bad-clip", None)
  {
  }

  /** The rows a combination of candidates stands for, each with its
      combination: one candidate from each list. */
  ghost predicate RowOf(digits: seq<seq<Candidate>>, prefix: map<string, Digit>, row: seq<Digit>)
  {
    exists perm :: perm in Product(digits) && ParityRow(perm, prefix) == Some(row)
  }

  /** A row of parityPossible has one more digit than there are lists, and
      takes one candidate from each list. */
  lemma RowOfShape(digits: seq<seq<Candidate>>, prefix: map<string, Digit>, row: seq<Digit>)
    requires |digits| == 12 && RowOf(digits, prefix, row)
    ensures |row| == 13
    ensures exists perm :: (|perm| == 12 && (forall k :: 0 <= k < 12 ==> perm[k] in digits[k])
      && Parities(perm[..6]) in prefix && row == [prefix[Parities(perm[..6])]] + DigitsOf(perm))
  {
    var perm :| perm in Product(digits) && ParityRow(perm, prefix) == Some(row);
    ProductMember(digits, perm);
    assert Slice(perm, 0, 6) == perm[..6];
  }

  /** A decoded text spells a 13-digit row that passes checkDigit, whose
      leading digit is the one the parity of its left half stands for and
      whose other twelve digits are candidates of the twelve groups. */
  lemma ResolveSound(digits: seq<seq<Candidate>>, likely: Option<int>, t: Tables, s: string)
    requires |digits| == 12 && Resolve(digits, likely, t) == Decoded(s)
    ensures exists row :: Parse(s) == Some(row) && CheckOk(row) && RowOf(digits, t.prefix, row)
  {
    var checked := Checked(ParityRows(Product(digits), t.prefix));
    var row := Choose(checked, likely);
    ChooseCountry(checked, likely);
    CheckedMember(ParityRows(Product(digits), t.prefix), row);
    ParityRowsMember(Product(digits), t.prefix, row);
    RowOfShape(digits, t.prefix, row);
    FormatParse(row);
  }

  /** With a likely country code, the decoded row leads with it whenever
      some row that passes the parity and check digit tests does. */
  lemma ResolveCountry(digits: seq<seq<Candidate>>, code: int, t: Tables, s: string, row: seq<Digit>)
    requires |digits| == 12 && Resolve(digits, Some(code), t) == Decoded(s)
    requires RowOf(digits, t.prefix, row) && CheckOk(row) && Leads(row, code)
    ensures Parse(s).Some? && Leads(Parse(s).value, code)
  {
    var rows := Checked(ParityRows(Product(digits), t.prefix));
    ParityRowsMember(Product(digits), t.prefix, row);
    CheckedMember(ParityRows(Product(digits), t.prefix), row);
    var j :| 0 <= j < |rows| && rows[j] == row;
    ChooseCountry(rows, Some(code));
    var chosen := Choose(rows, Some(code));
    CheckedMember(ParityRows(Product(digits), t.prefix), chosen);
    ParityRowsMember(Product(digits), t.prefix, chosen);
    RowOfShape(digits, t.prefix, chosen);
    FormatParse(chosen);
  }

  /** decode reports "parity" exactly when every list has a candidate but no
      combination has a parity pattern the leading-digit table knows. */
  lemma ResolveParity(digits: seq<seq<Candidate>>, likely: Option<int>, t: Tables)
    ensures Resolve(digits, likely, t) == Failed("parity", None) <==>
      (forall k :: 0 <= k < |digits| ==> |digits[k]| > 0)
      && forall perm :: perm in Product(digits) ==> ParityRow(perm, t.prefix).None?
  {
    var parity := ParityRows(Product(digits), t.prefix);
    if parity != [] {
      ParityRowsMember(Product(digits), t.prefix, parity[0]);
    }
    forall perm | perm in Product(digits) && ParityRow(perm, t.prefix).Some?
      ensures parity != []
    {
      ParityRowsMember(Product(digits), t.prefix, ParityRow(perm, t.prefix).value);
    }
  }

  /** decode reports "check" exactly when some combination has a known
      parity pattern but none of their rows passes checkDigit. */
  lemma ResolveCheck(digits: seq<seq<Candidate>>, likely: Option<int>, t: Tables)
    ensures Resolve(digits, likely, t) == Failed("check", None) <==>
      (forall k :: 0 <= k < |digits| ==> |digits[k]| > 0)
      && (exists row :: RowOf(digits, t.prefix, row))
      && forall row :: RowOf(digits, t.prefix, row) ==> !CheckOk(row)
  {
    var parity := ParityRows(Product(digits), t.prefix);
    var checked := Checked(parity);
    forall row
      ensures row in parity <==> RowOf(digits, t.prefix, row)
      ensures row in checked <==> row in parity && CheckOk(row)
    {
      ParityRowsMember(Product(digits), t.prefix, row);
      CheckedMember(parity, row);
    }
    if parity != [] {
      assert parity[0] in parity;
    }
    if checked != [] {
      assert checked[0] in checked;
    }
  }

  /** decode never loses a valid code: when some combination has a known
      parity pattern and its row passes checkDigit, a text is decoded. */
  lemma ResolveComplete(digits: seq<seq<Candidate>>, likely: Option<int>, t: Tables, row: seq<Digit>)
    requires |digits| == 12 && RowOf(digits, t.prefix, row) && CheckOk(row)
    ensures Resolve(digits, likely, t).Decoded?
  {
    var perm :| perm in Product(digits) && ParityRow(perm, t.prefix) == Some(row);
    ProductMember(digits, perm);
    forall k | 0 <= k < |digits|
      ensures |digits[k]| > 0
    {
      assert perm[k] in digits[k];
    }
    ResolveParity(digits, likely, t);
    ResolveCheck(digits, likely, t);
  }

  /** The row a combination of candidates stands for under the leading-digit
      table, when its parity pattern is a key. */
  function CodeOf(cands: seq<Candidate>, prefix: map<string, Digit>): (row: seq<Digit>)
    requires |cands| >= 6 && Parities(cands[..6]) in prefix
    ensures |row| == |cands| + 1
  {
    [prefix[Parities(cands[..6])]] + DigitsOf(cands)
  }

  /** Twelve candidate lists of one candidate each. */
  function Singletons(cands: seq<Candidate>): seq<seq<Candidate>>
  {
    seq(|cands|, k requires 0 <= k < |cands| => [cands[k]])
  }

  /** Singleton lists have one combination, which stands for one row. */
  lemma SingletonRows(cands: seq<Candidate>, prefix: map<string, Digit>)
    requires |cands| == 12 && Parities(cands[..6]) in prefix
    ensures ParityRows(Product(Singletons(cands)), prefix) == [CodeOf(cands, prefix)]
  {
    var digits := Singletons(cands);
    assert |digits| == 12 && forall i :: 0 <= i < 12 ==> digits[i] == [cands[i]];
    ProductOfSingletons(digits);
    var prod := Product(digits);
    assert |prod| == 1 && |prod[0]| == 12;
    assert forall i :: 0 <= i < 12 ==> prod[0][i] == digits[i][0] == cands[i];
    assert prod[0] == cands;
    assert prod == [cands];
    assert Slice(cands, 0, 6) == cands[..6];
    assert ParityRow(cands, prefix) == Some(CodeOf(cands, prefix));
    assert prod[..0] == [];
    assert ParityRows(prod, prefix) == ParityRows([], prefix) + Found(ParityRow(cands, prefix));
  }

  /** When exactly one row has a known parity pattern and it passes
      checkDigit, decode returns its text. */
  lemma ResolveOneRow(digits: seq<seq<Candidate>>, likely: Option<int>, t: Tables, row: seq<Digit>)
    requires forall k :: 0 <= k < |digits| ==> |digits[k]| > 0
    requires ParityRows(Product(digits), t.prefix) == [row] && CheckOk(row)
    ensures Resolve(digits, likely, t) == Decoded(Format(row))
  {
    var rows: seq<seq<Digit>> := [row];
    assert Checked(rows) == rows by {
      assert rows[..0] == [];
    }
    if likely.Some? {
      assert Matching(rows, likely.value) == (if Leads(row, likely.value) then rows else []);
    }
    assert Choose(rows, likely) == row;
  }

  /** A clean reading: each of the twelve lists holds exactly one candidate,
      the candidates' parities name a leading digit and the row passes
      checkDigit. decode then returns the text of that row, whatever the
      likely country code. */
  lemma ResolveClean(cands: seq<Candidate>, likely: Option<int>, t: Tables)
    requires |cands| == 12 && Parities(cands[..6]) in t.prefix && CheckOk(CodeOf(cands, t.prefix))
    ensures Resolve(Singletons(cands), likely, t) == Decoded(Format(CodeOf(cands, t.prefix)))
  {
    SingletonRows(cands, t.prefix);
    ResolveOneRow(Singletons(cands), likely, t, CodeOf(cands, t.prefix));
  }

  /** The group of digit j: groups 1-6 for the left half, 8-13 for the
      right. */
  function DigitGroup(j: nat): nat
  {
    if j < 6 then 1 + j else 2 + j
  }

  /** Twelve clean digit groups: group DigitGroup(j) is drawn at m pixels
      per module from module counts ks[j] totalling 7, and those counts
      spell cands[j] in the half's tables. */
  ghost predicate CleanDigits(groups: seq<seq<nat>>, m: nat, t: Tables, ks: seq<seq<nat>>, cands: seq<Candidate>)
  {
    |groups| == 15 && |ks| == 12 && |cands| == 12
    && forall j :: 0 <= j < 12 ==>
      Total(ks[j]) == 7 && groups[DigitGroup(j)] == Scaled(ks[j], m)
      && Lookup(t, WidthsToString(ks[j], j < 6), j < 6) == Some(cands[j])
  }

  /** Clean digit groups read at their own module width give one candidate
      per digit: the one its module counts spell. */
  lemma CandidatesClean(groups: seq<seq<nat>>, m: nat, t: Tables, ks: seq<seq<nat>>, cands: seq<Candidate>)
    requires m > 0 && CleanDigits(groups, m, t, ks, cands)
    ensures Candidates(groups, m as real, t) == Singletons(cands)
  {
    var c := Candidates(groups, m as real, t);
    forall j | 0 <= j < 12
      ensures c[j] == [cands[j]]
    {
      DecodeDigitClean(ks[j], m, t, j < 6);
      assert c[j] == DecodeDigit(m as real, groups[DigitGroup(j)], t, j < 6);
    }
  }

  /** n bars of one module each. */
  function Modules(n: nat): seq<nat>
  {
    seq(n, i requires 0 <= i < n => 1)
  }

  lemma {:induction false} ModulesTotal(n: nat)
    ensures Total(Modules(n)) == n
  {
    if n > 0 {
      ModulesTotal(n - 1);
      assert Modules(n)[..n - 1] == Modules(n - 1);
    }
  }

  /** Start, centre and end guards drawn one module per bar at m pixels per
      module make barSize m. */
  lemma BarSizeClean(groups: seq<seq<nat>>, m: nat)
    requires |groups| == 15
    requires groups[0] == Scaled(Modules(3), m) && groups[14] == Scaled(Modules(3), m)
    requires groups[7] == Scaled(Modules(5), m)
    ensures |groups[0]| > 0 && BarSize(groups) == m as real
  {
    var norm := groups[0] + groups[7] + groups[14];
    assert norm == Scaled(Modules(11), m);
    TotalScaled(Modules(11), m);
    ModulesTotal(11);
  }

  /** The groups of a noiseless rendering decode back to its code: guards
      one module per bar and twelve clean digit groups, all at m pixels per
      module, whose parities name a leading digit and whose row passes
      checkDigit, decode to the text of that row. */
  lemma DecodeCleanGroups(groups: seq<seq<nat>>, m: nat, ks: seq<seq<nat>>, cands: seq<Candidate>, likely: Option<int>)
    requires m > 0 && CleanDigits(groups, m, TABLES, ks, cands)
    requires groups[0] == Scaled(Modules(3), m) && groups[14] == Scaled(Modules(3), m)
    requires groups[7] == Scaled(Modules(5), m)
    requires Parities(cands[..6]) in TABLES.prefix && CheckOk(CodeOf(cands, TABLES.prefix))
    ensures |groups[0]| > 0 && BarSize(groups) > 0.0
    ensures Resolve(Candidates(groups, BarSize(groups), TABLES), likely, TABLES)
      == Decoded(Format(CodeOf(cands, TABLES.prefix)))
  {
    BarSizeClean(groups, m);
    CandidatesClean(groups, m, TABLES, ks, cands);
    ResolveClean(cands, likely, TABLES);
  }

  /** The candidates of a clean reading of 4006381333931: the left half in
      number sets A, B, A, A, B, B (the pattern of leading digit 4), the
      right half in set C. */
  const CLEAN_CANDIDATES: seq<Candidate> := [
    Candidate(0, true), Candidate(0, false), Candidate(6, true),
    Candidate(3, true), Candidate(8, false), Candidate(1, false),
    Candidate(3, false), Candidate(3, false), Candidate(3, false),
    Candidate(9, false), Candidate(3, false), Candidate(1, false)
  ]

  /** The thirteen digits of 4006381333931. */
  const CLEAN_ROW: seq<Digit> := [4, 0, 0, 6, 3, 8, 1, 3, 3, 3, 9, 3, 1]

  /** The left half's pattern is leading digit 4's, so the candidates stand
      for the row 4006381333931. */
  lemma CleanRow()
    ensures Parities(CLEAN_CANDIDATES[..6]) in ODD_EVEN_PREFIX
    ensures CodeOf(CLEAN_CANDIDATES, ODD_EVEN_PREFIX) == CLEAN_ROW
  {
    PrefixLiterals();
    MapOfAt(PREFIX_ENTRIES, 4);
    assert Parities(CLEAN_CANDIDATES[..6]) == PREFIX_ENTRIES[4].0;
  }

  /** One more digit adds its weighted value to the weighted sum. */
  lemma WeightedNext(s: seq<int>, i: nat)
    requires i < |s|
    ensures Weighted(s[..i + 1]) == Weighted(s[..i]) + Weight(i) * s[i]
  {
    assert s[..i + 1][..i] == s[..i];
  }

  /** 4006381333931 passes checkDigit: its first twelve digits weigh 89. */
  lemma CleanCheck()
    ensures CheckOk(CLEAN_ROW)
  {
    var r := CLEAN_ROW;
    assert r[..0] == [];
    WeightedNext(r, 0); WeightedNext(r, 1); WeightedNext(r, 2); WeightedNext(r, 3);
    WeightedNext(r, 4); WeightedNext(r, 5); WeightedNext(r, 6); WeightedNext(r, 7);
    WeightedNext(r, 8); WeightedNext(r, 9); WeightedNext(r, 10); WeightedNext(r, 11);
    assert Weighted(r[..12]) == 89;
  }

  /** The text of 4006381333931. */
  lemma CleanText()
    ensures Format(CLEAN_ROW) == "4-006381-333931"
  {
    var r := CLEAN_ROW;
    assert Slice(r, 0, 1) == [4] && Chars([4]) == "4";
    assert Slice(r, 1, 7) == [0, 0, 6, 3, 8, 1] && Chars([0, 0, 6, 3, 8, 1]) == "006381";
    assert Slice(r, 7, 13) == [3, 3, 3, 9, 3, 1] && Chars([3, 3, 3, 9, 3, 1]) == "333931";
  }

  /** A clean reading of 4006381333931 decodes to "4-006381-333931". */
  lemma ResolveCleanExample(likely: Option<int>)
    ensures Resolve(Singletons(CLEAN_CANDIDATES), likely, TABLES)
      == Decoded("4-006381-333931")
  {
    CleanRow();
    CleanCheck();
    ResolveClean(CLEAN_CANDIDATES, likely, TABLES);
    CleanText();
  }

  // ---------------------------------------------------------------------
  // lineToBarcode

  /** The moving-average window and the threshold factor of lineToBarcode. */
  const WINDOW: nat := 100
  const FACTOR: real := 0.9

  /** What lineToBarcode returns: "no-preamble" when no start guard is found
      in the binarised line, otherwise what decode makes of the line from
      the guard's first bar. */
  function LineToBarcodeSpec(line: seq<Pixel>, likely: Option<int>): Answer
  {
    var line2 := Binarize(line, SmoothSpec(line, WINDOW), FACTOR);
    var pixel0 := PreambleOf(line2);
    if pixel0.None? then Failed("no-preamble", None)
    else
      PreambleBoundary(line2, pixel0.value);
      DecodeSpec(line2, pixel0.value, likely, TABLES)
  }

  /** An evenly lit line with no barcode: every pixel at the same positive
      grey level binarises to all 1s, which holds no start guard, so
      lineToBarcode answers "no-preamble". */
  lemma ConstantLineNoPreamble(line: seq<Pixel>, c: int, likely: Option<int>)
    requires c > 0 && forall k :: 0 <= k < |line| ==> line[k] == c
    ensures LineToBarcodeSpec(line, likely) == Failed("no-preamble", None)
  {
    ConstantLineWhite(line, c, WINDOW, FACTOR);
    FlatLineNoPreamble(Binarize(line, SmoothSpec(line, WINDOW), FACTOR), 1);
  }

  /** lineToBarcode: threshold, find the start guard, decode. */
  method LineToBarcode(line: seq<Pixel>, likely: Option<int>) returns (r: Answer)
    ensures r == LineToBarcodeSpec(line, likely)
  {
    var line2 := SmoothThresh(line, WINDOW, FACTOR);
    var pixel0 := FindPreamble(line2);
    if pixel0.None? {
      return Failed("no-preamble", None);
    }
    PreambleBoundary(line2, pixel0.value);
    r := Decode(line2, pixel0.value, likely, TABLES);
  }

  /** The start guard lineToBarcode finds always begins on a black pixel,
      so decode's "bad-clip" never reaches its caller. */
  lemma LineToBarcodeNeverBadClip(line: seq<Pixel>, likely: Option<int>)
    ensures LineToBarcodeSpec(line, likely) != Failed("bad-clip", None)
  {
    var thresh := SmoothSpec(line, WINDOW);
    var line2 := Binarize(line, thresh, FACTOR);
    var pixel0 := PreambleOf(line2);
    if pixel0.Some? {
      var p := pixel0.value;
      PreambleBoundary(line2, p);
      BinarizeBits(line, thresh, FACTOR, p);
      DecodeBadClip(line2, p, likely, TABLES);
    }
  }
}
