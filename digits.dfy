/** barcode.js, the digit reader: from the pixel widths of one digit's four
    bars and spaces to the (digit, parity) candidates the tables allow.
    `roundTwice`, `widthsToString`, `likelyDigits` and `decodeDigit`. */
module Digits {
  import opened Wrappers
  import opened Util
  import opened BarConst

  // ---------------------------------------------------------------------
  // Rounding

  /** `Math.round`: the nearest integer, halves rounded up. */
  function Round(x: real): int
  {
    (x + 0.5).Floor
  }

  /** `Math.ceil`. */
  function Ceil(x: real): int
  {
    if x.Floor as real == x then x.Floor else x.Floor + 1
  }

  function Abs(x: real): real
  {
    if x < 0.0 then -x else x
  }

  /** Round gives the nearest integer: no integer is closer to x. */
  lemma RoundNearest(x: real, k: int)
    ensures Abs(x - Round(x) as real) <= 0.5
    ensures Abs(x - Round(x) as real) <= Abs(x - k as real)
  {
    var r := Round(x);
    assert r as real <= x + 0.5 < r as real + 1.0;
    if k > r {
      assert k as real >= r as real + 1.0;
    } else if k < r {
      assert k as real <= r as real - 1.0;
    }
  }

  /** The more likely rounding target of f, followed by the other one when f
      is not within a quarter of it. */
  function RoundTwice(f: real): (r: seq<int>)
    ensures 1 <= |r| <= 2 && r[0] == Round(f)
    ensures f >= 0.0 ==> forall i :: 0 <= i < |r| ==> r[i] >= 0
  {
    var likely := Round(f);
    if Abs(f - likely as real) < 0.25 then [likely]
    else [likely, if likely as real > f then f.Floor else Ceil(f)]
  }

  /** A single target exactly when f is within a quarter of its rounding;
      otherwise the two targets are the floor and the ceiling of f, the
      nearer one first. */
  lemma RoundTwiceTargets(f: real)
    ensures var r := RoundTwice(f);
      (|r| == 1 <==> Abs(f - Round(f) as real) < 0.25)
      && (|r| == 2 ==>
            r[0] != r[1]
            && {r[0], r[1]} == {f.Floor, Ceil(f)}
            && Abs(f - r[0] as real) <= Abs(f - r[1] as real))
  {
    var r := RoundTwice(f);
    if |r| == 2 {
      assert f.Floor as real != f;
      RoundNearest(f, r[1]);
    }
  }

  // ---------------------------------------------------------------------
  // Widths to bit strings

  /** The template bit of run i: `[0,1,0,1]` on the left half, `[1,0,1,0]`
      on the right. */
  function Bit(i: nat, isLeft: bool): char
  {
    if (i % 2 == 0) == isLeft then '0' else '1'
  }

  /** `new Array(width).fill(bits[i])`, joined. Past the fourth run the
      template holds `undefined`, which `join` renders as nothing. */
  function Fill(i: nat, width: nat, isLeft: bool): string
  {
    if i < 4 then seq(width, _ => Bit(i, isLeft)) else []
  }

  /** The bit string for a row of module widths: run i is widths[i] copies of
      template bit i. */
  function WidthsToString(widths: seq<nat>, isLeft: bool): string
  {
    if widths == [] then []
    else WidthsToString(widths[..|widths| - 1], isLeft) + Fill(|widths| - 1, widths[|widths| - 1], isLeft)
  }

  /** With at most four runs, the string has one bit per module, and module k
      of run i is template bit i. */
  lemma {:induction false} WidthsToStringAt(widths: seq<nat>, isLeft: bool, i: nat, k: nat)
    requires |widths| <= 4 && i < |widths| && k < widths[i]
    ensures var s, p := WidthsToString(widths, isLeft), Total(widths[..i]) + k;
      |s| == Total(widths) && 0 <= p < |s| && s[p] == Bit(i, isLeft)
  {
    var n := |widths| - 1;
    var init := widths[..n];
    WidthsToStringLength(widths, isLeft);
    WidthsToStringLength(init, isLeft);
    if i < n {
      WidthsToStringAt(init, isLeft, i, k);
      assert init[..i] == widths[..i];
    } else {
      assert widths[..i] == init;
    }
  }

  lemma {:induction false} WidthsToStringLength(widths: seq<nat>, isLeft: bool)
    requires |widths| <= 4
    ensures |WidthsToString(widths, isLeft)| == Total(widths)
  {
    if widths != [] {
      WidthsToStringLength(widths[..|widths| - 1], isLeft);
    }
  }

  /** Every bit string built from widths is binary. */
  lemma {:induction false} WidthsToStringBinary(widths: seq<nat>, isLeft: bool)
    ensures Binary(WidthsToString(widths, isLeft))
  {
    if widths != [] {
      WidthsToStringBinary(widths[..|widths| - 1], isLeft);
    }
  }

  // ---------------------------------------------------------------------
  // likelyDigits

  /** One decoded digit: its value and whether it came from number set A. */
  datatype Candidate = Candidate(digit: Digit, odd: bool)

  /** The maps of barConst.js the decoder consults: the three digit tables
      of likelyDigits and the leading-digit table of decode. */
  datatype Tables = Tables(odd: map<string, Digit>, leftEven: map<string, Digit>,
                           right: map<string, Digit>, prefix: map<string, Digit>)

  const TABLES := Tables(ODD_STRINGS, LEFT_EVEN_STRINGS, RIGHT_STRINGS, ODD_EVEN_PREFIX)

  /** The table lookup of one bit string: A then B on the left half, C on the
      right. */
  function Lookup(t: Tables, s: string, isLeft: bool): Option<Candidate>
  {
    if isLeft then
      if s in t.odd then Some(Candidate(t.odd[s], true))
      else if s in t.leftEven then Some(Candidate(t.leftEven[s], false))
      else None
    else if s in t.right then Some(Candidate(t.right[s], false))
    else None
  }

  /** A hit names the digit whose key the string is: odd hits are number set
      A keys, even hits on the left are set B keys, right hits set C keys. */
  lemma LookupHit(s: string, isLeft: bool)
    ensures var c := Lookup(TABLES, s, isLeft);
      c.Some? ==>
        (c.value.odd ==> isLeft && s == OddKey(c.value.digit))
        && (!c.value.odd && isLeft ==> s == EvenKey(c.value.digit))
        && (!isLeft ==> !c.value.odd && s == RightKey(c.value.digit))
  {
    TableKeys(s);
    OddTable();
    RightTable();
    LeftEvenTable();
  }

  /** A miss is a string that is no key of the half. */
  lemma LookupMiss(s: string, isLeft: bool)
    ensures Lookup(TABLES, s, isLeft).None? <==>
      if isLeft then forall d: Digit :: s != OddKey(d) && s != EvenKey(d)
      else forall d: Digit :: s != RightKey(d)
  {
    TableKeys(s);
  }

  /** The widths a raw pixel width may stand for, in modules of myBar pixels. */
  function Choice(x: nat, myBar: real): (r: seq<nat>)
    requires myBar > 0.0
  {
    assert x as real / myBar >= 0.0;
    RoundTwice(x as real / myBar)
  }

  function Choices(raw: seq<nat>, myBar: real): (c: seq<seq<nat>>)
    requires myBar > 0.0
  {
    seq(|raw|, i requires 0 <= i < |raw| => Choice(raw[i], myBar))
  }

  /** `perm.filter(row => util.sum(row) == 7)`. */
  function Sevens(rows: seq<seq<nat>>): (r: seq<seq<nat>>)
  {
    if rows == [] then []
    else (if Total(rows[0]) == 7 then [rows[0]] else []) + Sevens(rows[1..])
  }

  /** The lookup of every row's string, misses dropped. */
  function Matches(rows: seq<seq<nat>>, t: Tables, isLeft: bool): seq<Candidate>
  {
    if rows == [] then []
    else Found(Lookup(t, WidthsToString(rows[0], isLeft), isLeft)) + Matches(rows[1..], t, isLeft)
  }

  /** `.filter(x => x)` on one lookup: a hit is kept, a miss dropped. */
  function Found<T>(c: Option<T>): seq<T>
  {
    if c.Some? then [c.value] else []
  }

  /** Every combination of rounding targets whose widths sum to 7 modules,
      looked up in the half's tables. */
  function LikelyDigits(raw: seq<nat>, myBar: real, t: Tables, isLeft: bool): seq<Candidate>
    requires myBar > 0.0
  {
    Matches(Sevens(Product(Choices(raw, myBar))), t, isLeft)
  }

  lemma {:induction false} SevensMember(rows: seq<seq<nat>>, row: seq<nat>)
    ensures row in Sevens(rows) <==> row in rows && Total(row) == 7
  {
    if rows != [] {
      SevensMember(rows[1..], row);
      assert rows == [rows[0]] + rows[1..];
    }
  }

  /** The row's bit string is a key of the half's tables that decodes to c. */
  predicate Spells(t: Tables, row: seq<nat>, isLeft: bool, c: Candidate)
  {
    Lookup(t, WidthsToString(row, isLeft), isLeft) == Some(c)
  }

  lemma {:induction false} MatchesMember(rows: seq<seq<nat>>, t: Tables, isLeft: bool, c: Candidate)
    ensures c in Matches(rows, t, isLeft) <==> exists row :: row in rows && Spells(t, row, isLeft, c)
  {
    if rows != [] {
      var head, rest := rows[0], rows[1..];
      MatchesMember(rest, t, isLeft, c);
      assert c in Found(Lookup(t, WidthsToString(head, isLeft), isLeft)) <==> Spells(t, head, isLeft, c);
      assert forall row :: row in rows <==> row == head || row in rest;
    }
  }

  /** A candidate is returned exactly when some choice of one rounding
      target per raw width sums to 7 modules and spells a key of the half's
      tables that decodes to it. */
  lemma LikelyDigitsMember(raw: seq<nat>, myBar: real, t: Tables, isLeft: bool, c: Candidate)
    requires myBar > 0.0
    ensures c in LikelyDigits(raw, myBar, t, isLeft) <==>
      exists row :: row in Product(Choices(raw, myBar)) && Total(row) == 7 && Spells(t, row, isLeft, c)
  {
    var rows := Product(Choices(raw, myBar));
    MatchesMember(Sevens(rows), t, isLeft, c);
    forall row: seq<nat>
      ensures row in Sevens(rows) <==> row in rows && Total(row) == 7
    {
      SevensMember(rows, row);
    }
  }

  // ---------------------------------------------------------------------
  // decodeDigit

  /** Seven modules of tot / bar pixels make a positive total. */
  lemma SevenModulesPositive(tot: int, bar: real)
    requires bar > 0.0 && Round(tot as real / bar) == 7
    ensures tot > 0
  {
    var q := tot as real / bar;
    assert q >= 6.5;
    assert tot as real == q * bar;
  }

  /** The candidates for one digit group: none unless its total is seven
      bar widths, rounded; otherwise likelyDigits with the group's own
      module width tot / 7. */
  function DecodeDigit(bar: real, lengths: seq<nat>, t: Tables, isLeft: bool): seq<Candidate>
    requires bar > 0.0
  {
    var tot := Total(lengths);
    if Round(tot as real / bar) != 7 then []
    else
      SevenModulesPositive(tot, bar);
      LikelyDigits(lengths, tot as real / 7.0, t, isLeft)
  }

  /** Every candidate of decodeDigit comes from a group of seven bar widths
      and a row of rounding targets summing to 7 whose string the half's
      tables know; odd candidates only come from the odd table, on the left. */
  lemma DecodeDigitSound(bar: real, lengths: seq<nat>, t: Tables, isLeft: bool, c: Candidate)
    requires bar > 0.0 && c in DecodeDigit(bar, lengths, t, isLeft)
    ensures Round(Total(lengths) as real / bar) == 7 && Total(lengths) > 0
    ensures exists row :: (row in Product(Choices(lengths, Total(lengths) as real / 7.0))
      && Total(row) == 7 && Spells(t, row, isLeft, c))
    ensures c.odd ==> isLeft && exists s :: s in t.odd && t.odd[s] == c.digit
  {
    SevenModulesPositive(Total(lengths), bar);
    var row := LikelyDigitsRow(lengths, Total(lengths) as real / 7.0, t, isLeft, c);
    OddHit(t, WidthsToString(row, isLeft), isLeft, c);
  }

  /** A candidate of likelyDigits comes with the row of rounding targets
      that spells it: one target per width, seven modules in all. */
  lemma LikelyDigitsRow(raw: seq<nat>, myBar: real, t: Tables, isLeft: bool, c: Candidate) returns (row: seq<nat>)
    requires myBar > 0.0 && c in LikelyDigits(raw, myBar, t, isLeft)
    ensures row in Product(Choices(raw, myBar)) && Total(row) == 7 && Spells(t, row, isLeft, c)
  {
    LikelyDigitsMember(raw, myBar, t, isLeft, c);
    row :| row in Product(Choices(raw, myBar)) && Total(row) == 7 && Spells(t, row, isLeft, c);
  }

  /** An odd hit is a left-half hit in the odd table. */
  lemma OddHit(t: Tables, s: string, isLeft: bool, c: Candidate)
    requires Lookup(t, s, isLeft) == Some(c)
    ensures c.odd ==> isLeft && s in t.odd && t.odd[s] == c.digit
  {
  }

  /** Module counts k drawn at m pixels per module. */
  function Scaled(k: seq<nat>, m: nat): seq<nat>
  {
    seq(|k|, i requires 0 <= i < |k| => k[i] * m)
  }

  /** Drawing every width at m pixels per module multiplies the total by m. */
  lemma {:induction false} TotalScaled(k: seq<nat>, m: nat)
    ensures Total(Scaled(k, m)) == Total(k) * m
  {
    if k != [] {
      var n := |k| - 1;
      TotalScaled(k[..n], m);
      assert Scaled(k, m)[..n] == Scaled(k[..n], m);
    }
  }

  /** A whole number of modules is its own only rounding target. */
  lemma RoundTwiceWhole(n: int)
    ensures RoundTwice(n as real) == [n]
  {
    assert (n as real + 0.5).Floor == n;
  }

  lemma WholeRatio(a: nat, m: nat)
    requires m > 0
    ensures (a * m) as real / m as real == a as real
  {
    assert (a * m) as real == a as real * m as real;
  }

  /** At m pixels per module, each drawn width rounds to its module count
      alone, so the product of rounding targets is the one row k. */
  lemma CleanChoices(k: seq<nat>, m: nat)
    requires m > 0 && k != []
    ensures Product(Choices(Scaled(k, m), m as real)) == [k]
  {
    var lengths := Scaled(k, m);
    var choices := Choices(lengths, m as real);
    forall i | 0 <= i < |k|
      ensures choices[i] == [k[i]]
    {
      assert lengths[i] == k[i] * m;
      WholeRatio(k[i], m);
      RoundTwiceWhole(k[i]);
    }
    ProductOfSingletons(choices);
    var prod := Product(choices);
    assert |prod| == 1 && |prod[0]| == |k|;
    assert forall i :: 0 <= i < |k| ==> prod[0][i] == choices[i][0] == k[i];
    assert prod[0] == k;
  }

  /** A clean digit: widths of exactly k[i] modules of m pixels each, seven
      modules in all, read with bar width m. decodeDigit rounds every width
      to its module count and returns exactly the lookup of the string the
      counts spell: the one candidate of a key, nothing otherwise. */
  lemma DecodeDigitClean(k: seq<nat>, m: nat, t: Tables, isLeft: bool)
    requires m > 0 && Total(k) == 7
    ensures DecodeDigit(m as real, Scaled(k, m), t, isLeft)
      == Found(Lookup(t, WidthsToString(k, isLeft), isLeft))
  {
    TotalScaled(k, m);
    var tot := Total(Scaled(k, m));
    assert tot as real / m as real == 7.0;
    assert tot as real / 7.0 == m as real;
    CleanChoices(k, m);
    assert Round(tot as real / m as real) == 7;
    var rows: seq<seq<nat>> := [k];
    assert rows[1..] == [];
    assert Sevens(rows) == rows;
    assert Choices(Scaled(k, m), tot as real / 7.0) == Choices(Scaled(k, m), m as real);
    assert LikelyDigits(Scaled(k, m), tot as real / 7.0, t, isLeft) == Matches(rows, t, isLeft);
    assert Matches(rows, t, isLeft) == Found(Lookup(t, WidthsToString(k, isLeft), isLeft)) + Matches([], t, isLeft);
  }
}
