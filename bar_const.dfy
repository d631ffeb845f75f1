/** barConst.js: the EAN-13 number sets A (odd, left half), B (even, left
    half) and C (right half), and the table that recovers the hidden leading
    digit from the odd/even pattern of the six left digits. Bits are
    characters: '1' is a module of bar, '0' a module of space. */
module BarConst {

  type Digit = d: int | 0 <= d <= 9

  // ---------------------------------------------------------------------
  // Map construction

  /** `new Map(entries)`: entries are set in order, so a later entry for a key
      overwrites an earlier one. */
  function MapOf<K, V>(entries: seq<(K, V)>): map<K, V>
  {
    if entries == [] then map[]
    else
      var last := entries[|entries| - 1];
      MapOf(entries[..|entries| - 1])[last.0 := last.1]
  }

  /** `Array.from(m.entries()).map(([k, v]) => [f(k), v])`: the entries in
      order, each key replaced by its image under f. */
  function MapKeys<V>(entries: seq<(string, V)>, f: string -> string): (r: seq<(string, V)>)
    ensures |r| == |entries|
    ensures forall i :: 0 <= i < |r| ==> r[i] == (f(entries[i].0), entries[i].1)
  {
    if entries == [] then []
    else [(f(entries[0].0), entries[0].1)] + MapKeys(entries[1..], f)
  }

  ghost predicate DistinctKeys<K, V>(entries: seq<(K, V)>)
  {
    forall i, j :: 0 <= i < j < |entries| ==> entries[i].0 != entries[j].0
  }

  /** The keys of the Map are the keys of its entries. */
  lemma {:induction false} MapOfKeys<K, V>(entries: seq<(K, V)>, k: K)
    ensures k in MapOf(entries) <==> exists i :: 0 <= i < |entries| && entries[i].0 == k
  {
    if entries != [] {
      var init := entries[..|entries| - 1];
      MapOfKeys(init, k);
      if k in MapOf(init) {
        var i :| 0 <= i < |init| && init[i].0 == k;
        assert entries[i].0 == k;
      }
      if i :| 0 <= i < |entries| && entries[i].0 == k {
        if i < |init| {
          assert init[i].0 == k;
        }
      }
    }
  }

  /** With distinct keys, each entry's key maps to its own value. */
  lemma {:induction false} MapOfAt<K, V>(entries: seq<(K, V)>, i: nat)
    requires DistinctKeys(entries) && i < |entries|
    ensures entries[i].0 in MapOf(entries) && MapOf(entries)[entries[i].0] == entries[i].1
  {
    if i < |entries| - 1 {
      MapOfAt(entries[..|entries| - 1], i);
    }
  }

  /** With distinct keys, the Map has one entry per element: the size check
      of the source passes. */
  lemma {:induction false} MapOfSize<K, V>(entries: seq<(K, V)>)
    requires DistinctKeys(entries)
    ensures |MapOf(entries)| == |entries|
  {
    if entries != [] {
      var init, last := entries[..|entries| - 1], entries[|entries| - 1];
      MapOfSize(init);
      MapOfKeys(init, last.0);
      assert last.0 !in MapOf(init);
    }
  }

  // ---------------------------------------------------------------------
  // String helpers

  predicate Binary(s: string)
  {
    forall i :: 0 <= i < |s| ==> s[i] == '0' || s[i] == '1'
  }

  /** The number of bar modules of a pattern. */
  function Ones(s: string): nat
  {
    if s == [] then 0 else (if s[0] == '1' then 1 else 0) + Ones(s[1..])
  }

  lemma {:induction false} OnesConcat(s: string, t: string)
    ensures Ones(s + t) == Ones(s) + Ones(t)
  {
    if s != [] {
      OnesConcat(s[1..], t);
      assert (s + t)[0] == s[0];
      assert (s + t)[1..] == s[1..] + t;
    } else {
      assert s + t == t;
    }
  }

  function Flip(c: char): char
  {
    if c == '0' then '1' else if c == '1' then '0' else '?'
  }

  /** Complements every bit: an odd string becomes the right-half string. */
  function OddToRight(odd: string): string
  {
    seq(|odd|, i requires 0 <= i < |odd| => Flip(odd[i]))
  }

  function ReverseString(s: string): string
  {
    seq(|s|, i requires 0 <= i < |s| => s[|s| - 1 - i])
  }

  /** The odd, left-even and right strings of one digit. */
  function AllStrings(odd: string): seq<string>
  {
    var even := OddToRight(odd);
    [odd, ReverseString(even), even]
  }

  lemma OddToRightInvolutive(s: string)
    requires Binary(s)
    ensures Binary(OddToRight(s)) && OddToRight(OddToRight(s)) == s
  {
  }

  lemma ReverseInvolutive(s: string)
    ensures ReverseString(ReverseString(s)) == s
  {
  }

  /** Complementing a binary string swaps its bar and space modules. */
  lemma {:induction false} OnesComplement(s: string)
    requires Binary(s)
    ensures Ones(OddToRight(s)) == |s| - Ones(s)
  {
    if s != [] {
      OnesComplement(s[1..]);
      assert OddToRight(s)[1..] == OddToRight(s[1..]);
    }
  }

  lemma {:induction false} OnesReverse(s: string)
    ensures Ones(ReverseString(s)) == Ones(s)
  {
    if s != [] {
      OnesReverse(s[1..]);
      assert ReverseString(s) == ReverseString(s[1..]) + [s[0]];
      OnesConcat(ReverseString(s[1..]), [s[0]]);
    }
  }

  // ---------------------------------------------------------------------
  // The tables

  /** Number set A, in the source's order (digit i at index i). */
  const ODD_ENTRIES: seq<(string, Digit)> := [
    ("0001101", 0),
    ("0011001", 1),
    ("0010011", 2),
    ("0111101", 3),
    ("0100011", 4),
    ("0110001", 5),
    ("0101111", 6),
    ("0111011", 7),
    ("0110111", 8),
    ("0001011", 9)
  ]

  const ODD_STRINGS: map<string, Digit> := MapOf(ODD_ENTRIES)

  /** Number set C: each A string complemented, for the same digit. */
  const RIGHT_ENTRIES: seq<(string, Digit)> := MapKeys(ODD_ENTRIES, OddToRight)

  const RIGHT_STRINGS: map<string, Digit> := MapOf(RIGHT_ENTRIES)

  /** Number set B: each C string reversed, for the same digit. */
  const LEFT_EVEN_ENTRIES: seq<(string, Digit)> := MapKeys(RIGHT_ENTRIES, ReverseString)

  const LEFT_EVEN_STRINGS: map<string, Digit> := MapOf(LEFT_EVEN_ENTRIES)

  /** Odd (1) / even (0) pattern of the six left digits -> hidden leading digit. */
  const PREFIX_ENTRIES: seq<(string, Digit)> := [
    ("111111", 0),
    ("110100", 1),
    ("110010", 2),
    ("110001", 3),
    ("101100", 4),
    ("100110", 5),
    ("100011", 6),
    ("101010", 7),
    ("101001", 8),
    ("100101", 9)
  ]

  const ODD_EVEN_PREFIX: map<string, Digit> := MapOf(PREFIX_ENTRIES)

  /** The odd string of a digit. */
  function OddKey(d: Digit): string { ODD_ENTRIES[d].0 }

  /** The left-even string of a digit. */
  function EvenKey(d: Digit): string { LEFT_EVEN_ENTRIES[d].0 }

  /** The right string of a digit. */
  function RightKey(d: Digit): string { RIGHT_ENTRIES[d].0 }

  // ---------------------------------------------------------------------
  // Facts about the literals

  /** The shape of a number-set-A string: seven modules, starting with a
      space and ending with a bar, with an odd number of bar modules. */
  predicate OddShape(s: string)
  {
    |s| == 7 && Binary(s) && s[0] == '0' && s[6] == '1' && Ones(s) % 2 == 1
  }

  lemma OddDigits()
    ensures |ODD_ENTRIES| == 10
    ensures forall d: Digit :: ODD_ENTRIES[d].1 == d
  {
  }

  // The shape of the literal keys is checked a few digits at a time, which
  // keeps each check small for the solver.
  lemma OddShapesLow(d: Digit)
    requires d < 3
    ensures OddShape(OddKey(d))
  {
  }

  lemma OddShapesMid(d: Digit)
    requires 3 <= d < 6
    ensures OddShape(OddKey(d))
  {
  }

  lemma OddShapesHigh(d: Digit)
    requires 6 <= d
    ensures OddShape(OddKey(d))
  {
  }

  lemma OddLiterals()
    ensures |ODD_ENTRIES| == 10
    ensures forall d: Digit :: ODD_ENTRIES[d].1 == d && OddShape(OddKey(d))
  {
    OddDigits();
    forall d: Digit
      ensures OddShape(OddKey(d))
    {
      if d < 3 {
        OddShapesLow(d);
      } else if d < 6 {
        OddShapesMid(d);
      } else {
        OddShapesHigh(d);
      }
    }
  }

  lemma OddKeysDistinct()
    ensures |ODD_ENTRIES| == 10 && DistinctKeys(ODD_ENTRIES)
  {
  }

  lemma PrefixLiterals()
    ensures |PREFIX_ENTRIES| == 10 && DistinctKeys(PREFIX_ENTRIES)
    ensures forall d :: 0 <= d < 10 ==> PREFIX_ENTRIES[d].1 == d
    ensures forall d :: 0 <= d < 10 ==>
      var s := PREFIX_ENTRIES[d].0;
      |s| == 6 && Binary(s) && s[0] == '1'
  {
  }

  lemma RightKeysDistinct()
    ensures |RIGHT_ENTRIES| == 10 && DistinctKeys(RIGHT_ENTRIES)
  {
    OddLiterals();
    OddKeysDistinct();
    forall i, j | 0 <= i < j < 10
      ensures RIGHT_ENTRIES[i].0 != RIGHT_ENTRIES[j].0
    {
      OddToRightInvolutive(ODD_ENTRIES[i].0);
      OddToRightInvolutive(ODD_ENTRIES[j].0);
    }
  }

  lemma LeftEvenKeysDistinct()
    ensures |LEFT_EVEN_ENTRIES| == 10 && DistinctKeys(LEFT_EVEN_ENTRIES)
  {
    RightKeysDistinct();
    forall i, j | 0 <= i < j < 10
      ensures LEFT_EVEN_ENTRIES[i].0 != LEFT_EVEN_ENTRIES[j].0
    {
      ReverseInvolutive(RIGHT_ENTRIES[i].0);
      ReverseInvolutive(RIGHT_ENTRIES[j].0);
    }
  }

  /** ODD_STRINGS has exactly ten entries, digit d under the d-th string, so
      the module-load size check never throws. */
  lemma OddTable()
    ensures |ODD_STRINGS| == 10
    ensures forall d: Digit :: OddKey(d) in ODD_STRINGS && ODD_STRINGS[OddKey(d)] == d
  {
    OddKeysDistinct();
    MapOfSize(ODD_ENTRIES);
    forall d: Digit
      ensures OddKey(d) in ODD_STRINGS && ODD_STRINGS[OddKey(d)] == d
    {
      MapOfAt(ODD_ENTRIES, d);
    }
  }

  /** RIGHT_STRINGS maps the complement of each odd string to the same digit. */
  lemma RightTable()
    ensures |RIGHT_STRINGS| == 10
    ensures forall d: Digit :: RightKey(d) == OddToRight(OddKey(d))
    ensures forall d: Digit :: RightKey(d) in RIGHT_STRINGS && RIGHT_STRINGS[RightKey(d)] == d
  {
    OddDigits();
    RightKeysDistinct();
    MapOfSize(RIGHT_ENTRIES);
    forall d: Digit
      ensures RightKey(d) in RIGHT_STRINGS && RIGHT_STRINGS[RightKey(d)] == d
    {
      MapOfAt(RIGHT_ENTRIES, d);
    }
  }

  /** LEFT_EVEN_STRINGS maps the reverse of each right string to the same digit. */
  lemma LeftEvenTable()
    ensures |LEFT_EVEN_STRINGS| == 10
    ensures forall d: Digit :: EvenKey(d) == ReverseString(RightKey(d))
    ensures forall d: Digit :: EvenKey(d) in LEFT_EVEN_STRINGS && LEFT_EVEN_STRINGS[EvenKey(d)] == d
  {
    OddDigits();
    LeftEvenKeysDistinct();
    MapOfSize(LEFT_EVEN_ENTRIES);
    forall d: Digit
      ensures EvenKey(d) in LEFT_EVEN_STRINGS && LEFT_EVEN_STRINGS[EvenKey(d)] == d
    {
      MapOfAt(LEFT_EVEN_ENTRIES, d);
    }
  }

  /** Each table's keys are exactly the strings of the ten digits. */
  lemma OddKeys(s: string)
    ensures s in ODD_STRINGS <==> exists d: Digit :: s == OddKey(d)
  {
    OddDigits();
    MapOfKeys(ODD_ENTRIES, s);
    if s in ODD_STRINGS {
      var i :| 0 <= i < 10 && ODD_ENTRIES[i].0 == s;
      assert s == OddKey(i);
    }
  }

  lemma RightKeys(s: string)
    ensures s in RIGHT_STRINGS <==> exists d: Digit :: s == RightKey(d)
  {
    OddDigits();
    MapOfKeys(RIGHT_ENTRIES, s);
    if s in RIGHT_STRINGS {
      var i :| 0 <= i < 10 && RIGHT_ENTRIES[i].0 == s;
      assert s == RightKey(i);
    }
  }

  lemma EvenKeys(s: string)
    ensures s in LEFT_EVEN_STRINGS <==> exists d: Digit :: s == EvenKey(d)
  {
    OddDigits();
    MapOfKeys(LEFT_EVEN_ENTRIES, s);
    if s in LEFT_EVEN_STRINGS {
      var i :| 0 <= i < 10 && LEFT_EVEN_ENTRIES[i].0 == s;
      assert s == EvenKey(i);
    }
  }

  lemma TableKeys(s: string)
    ensures s in ODD_STRINGS <==> exists d: Digit :: s == OddKey(d)
    ensures s in RIGHT_STRINGS <==> exists d: Digit :: s == RightKey(d)
    ensures s in LEFT_EVEN_STRINGS <==> exists d: Digit :: s == EvenKey(d)
  {
    OddKeys(s);
    RightKeys(s);
    EvenKeys(s);
  }

  /** The shape of a number-set-C string: seven modules, starting with a bar,
      with an even number of bar modules. */
  predicate RightShape(s: string)
  {
    |s| == 7 && Binary(s) && s[0] == '1' && Ones(s) % 2 == 0
  }

  /** The shape of a number-set-B string: seven modules, starting with a space,
      with an even number of bar modules. */
  predicate EvenShape(s: string)
  {
    |s| == 7 && Binary(s) && s[0] == '0' && Ones(s) % 2 == 0
  }

  /** Complementing an A-shaped string gives a C-shaped one, and reversing
      that gives a B-shaped one. */
  lemma DerivedShapes(o: string)
    requires OddShape(o)
    ensures RightShape(OddToRight(o)) && EvenShape(ReverseString(OddToRight(o)))
  {
    var r := OddToRight(o);
    OnesComplement(o);
    OnesReverse(r);
  }

  /** Every key is seven bits; odd keys have an odd number of bar modules, the
      left-even and right keys an even number. Odd and left-even keys start
      with a space module, right keys with a bar module. */
  lemma KeyShapes(d: Digit)
    ensures OddShape(OddKey(d)) && EvenShape(EvenKey(d)) && RightShape(RightKey(d))
  {
    OddLiterals();
    DerivedShapes(OddKey(d));
    assert RightKey(d) == OddToRight(OddKey(d));
  }

  /** A bit string is a key of at most one of the three tables. */
  lemma TablesDisjoint(s: string)
    ensures !(s in ODD_STRINGS && s in LEFT_EVEN_STRINGS)
    ensures !(s in ODD_STRINGS && s in RIGHT_STRINGS)
    ensures !(s in LEFT_EVEN_STRINGS && s in RIGHT_STRINGS)
  {
    TableKeys(s);
    if s in ODD_STRINGS {
      var d: Digit :| s == OddKey(d);
      KeyShapes(d);
      if s in LEFT_EVEN_STRINGS {
        var e: Digit :| s == EvenKey(e);
        KeyShapes(e);
      }
    }
    if s in RIGHT_STRINGS {
      var d: Digit :| s == RightKey(d);
      KeyShapes(d);
      if s in LEFT_EVEN_STRINGS {
        var e: Digit :| s == EvenKey(e);
        KeyShapes(e);
      }
    }
  }

  /** Within a table, different keys give different digits: with
      TablesDisjoint, a bit string identifies at most one (table, digit). */
  lemma TablesInjective(s: string, t: string)
    ensures s in ODD_STRINGS && t in ODD_STRINGS && ODD_STRINGS[s] == ODD_STRINGS[t] ==> s == t
    ensures s in RIGHT_STRINGS && t in RIGHT_STRINGS && RIGHT_STRINGS[s] == RIGHT_STRINGS[t] ==> s == t
    ensures s in LEFT_EVEN_STRINGS && t in LEFT_EVEN_STRINGS && LEFT_EVEN_STRINGS[s] == LEFT_EVEN_STRINGS[t] ==> s == t
  {
    TableKeys(s);
    TableKeys(t);
    OddTable();
    RightTable();
    LeftEvenTable();
  }

  /** allStrings of a digit's odd string lists that digit's three table keys. */
  lemma AllStringsTables(d: Digit)
    ensures AllStrings(OddKey(d)) == [OddKey(d), EvenKey(d), RightKey(d)]
  {
  }

  /** ODD_EVEN_PREFIX: ten six-bit keys, each starting with an odd digit,
      mapped one-to-one onto the ten digits. */
  lemma PrefixTable()
    ensures |ODD_EVEN_PREFIX| == 10
    ensures forall k :: k in ODD_EVEN_PREFIX ==> |k| == 6 && Binary(k) && k[0] == '1'
    ensures forall d: Digit :: PREFIX_ENTRIES[d].0 in ODD_EVEN_PREFIX && ODD_EVEN_PREFIX[PREFIX_ENTRIES[d].0] == d
    ensures forall k, l :: k in ODD_EVEN_PREFIX && l in ODD_EVEN_PREFIX && ODD_EVEN_PREFIX[k] == ODD_EVEN_PREFIX[l] ==> k == l
  {
    PrefixLiterals();
    MapOfSize(PREFIX_ENTRIES);
    forall d: Digit
      ensures PREFIX_ENTRIES[d].0 in ODD_EVEN_PREFIX && ODD_EVEN_PREFIX[PREFIX_ENTRIES[d].0] == d
    {
      MapOfAt(PREFIX_ENTRIES, d);
    }
    forall k | k in ODD_EVEN_PREFIX
      ensures exists d: Digit :: k == PREFIX_ENTRIES[d].0
    {
      MapOfKeys(PREFIX_ENTRIES, k);
      var i :| 0 <= i < 10 && PREFIX_ENTRIES[i].0 == k;
      assert k == PREFIX_ENTRIES[i].0;
    }
  }
}
