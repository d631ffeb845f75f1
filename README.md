# lasercam EAN-13 scanline decoder, modelled in Dafny

lasercam reads an EAN-13 barcode from one row of pixels. This project models that core:

- The JavaScript decoder:
  - `lineToBarcode` binarises the line against a moving average (`smooth`, `smoothThresh`).
  - `findPreamble` finds the start guard. It run-length-encodes the line into a five-slot `CircularBuffer`.
  - `decode` cuts the runs after the guard into the fifteen EAN-13 groups. It rounds each digit group's widths to modules (`roundTwice`, `permute`) and looks the bit strings up in the number-set tables of `barConst.js`. It recovers the hidden leading digit from the left-half parities, filters the rows by the check digit and formats `D-DDDDDD-DDDDDD`.
- The Python prototype `laser.py`:
  - `find_run` is the state machine that finds a barcode-like stretch of block ratios.
  - `get_groups`, `all_strings`, `DIGIT_LOOKUP` and `decode_digit` are its pure decoding steps.

Modules, one per part of the program:

| module | file | models |
|---|---|---|
| `Wrappers` | wrappers.dfy | `Option`, `Result` and `Outcome` (a thrown error or a normal return) |
| `Util` | util.dfy | util.js: `sum`, `imax`, `histo`, `threshold`, `permute`, `CircularBuffer` |
| `BarConst` | bar_const.dfy | barConst.js: number sets A, B and C, the leading-digit table, `allStrings`, `oddToRight`, `reverseString` |
| `Otsu` | otsu.dfy | otsu.js: `RollingSum`, `smooth`, `smoothThresh` |
| `Preamble` | preamble.dfy | barcode.js: `Run`, `runsInBound`, `barError`, `findPreamble` |
| `Sections` | sections.dfy | barcode.js: the section loop of `decode`, `EAN_GROUPS`, `getGroups` |
| `Digits` | digits.dfy | barcode.js: `roundTwice`, `widthsToString`, `likelyDigits`, `decodeDigit` |
| `Decoder` | decoder.dfy | barcode.js: `firstAndLast`, `checkDigit`, `decode`, `lineToBarcode` |
| `Laser` | laser.dfy | laser.py: `is_barcode`, `is_white`, `find_run`, `get_groups`, `all_strings`, the lookup tables, `decode_digit` |

Modelling conventions:

- Loops in the source are Dafny methods with loops. Each method is proved equal to a specification function, and the properties are proved about that function.
- `CircularBuffer` and `RollingSum` are classes over arrays. An abstract ghost sequence holds the live contents.
- Divisions of pixel counts are exact reals. `Math.round(x)` is `Floor(x + 1/2)`. A Uint8Array store of a non-negative mean is a floor.
- Binarised lines hold 0 and 1. 1 means brighter than the local threshold.
- The JavaScript `Map`s are built from entry lists (`MapOf`), so a later entry overwrites an earlier one. The Python dict comprehension is built the same way.
- A failed Python `assert` or a missing key becomes an `Err` carrying the exception's name or message.

The group lengths `3, 4×6, 5, 4×6, 3` total 59, not 61:

- `decode` keeps at most 60 sections. Its loop stops once there are more than `util.sum(EAN_GROUPS)` of them.
- `get_groups` asserts every group full exactly when it receives at least 59 sections.

The model follows the code here.

## Model

| member | source | states |
|---|---|---|
| Util.Sum | util.js:36-41 | returns the left-to-right total of the array (`Total`) |
| Util.TotalConcat | util.js:36-41 | the total of a concatenation is the sum of the two totals |
| Util.TotalBounded | util.js:36-41 | values between lo and hi give a total between lo·n and hi·n |
| Util.Imax | util.js:43-53 | 0 for an empty array; otherwise an index of a maximum, with every earlier element strictly smaller, so ties keep the earliest |
| Util.Histo | util.js:4-21 | for a non-empty array: min and max are elements that bound every element; n is the length; mean is total / n; bins are the exact bin counts stored in 16-bit slots |
| Util.CountBins | util.js:14-19 | the counting loop leaves the exact bin counts, each modulo 2^16 |
| Util.Wrap16Bump | util.js:14-18 | an increment of a Uint16 slot wraps at 2^16 |
| Util.BinOfInRange | util.js:15-18 | when min < max, a value below max lands in a bin in [0, nbins); the maximum computes index nbins, and that write is dropped |
| Util.BinCountsBounded | util.js:14-19 | every bin count lies between 0 and n |
| Util.BinCountsTotal | util.js:4-21 | the bin counts total n minus the number of occurrences of max |
| Util.HistoBinsTotal | util.js:13-19 | for fewer than 2^16 values, the stored bins total n minus the number of occurrences of max |
| Util.HistoConstantEmpty | util.js:15-18 | for a constant array the range is 0, every index is NaN, and no bin is written |
| Util.HistoDropsMax | util.js:17-18 | for [0, 1] in two bins only one of the two values is counted |
| Util.ClampedBinOf | util.js:17 | the clamped bin index is always in [0, nbins), and it equals the source's index strictly between min and max |
| Util.ClampedBinsTotal | util.js:4-21 | with clamping, the bins total exactly n |
| Util.Threshold | util.js:65-72 | same length as the line; every entry is 0 or 1, and it is 1 exactly when the sample exceeds thresh |
| Util.ExtendAt | util.js:86-90 | the nested loops put [heads[i]] + tails[j] at row i·\|tails\| + j |
| Util.ExtendLength | util.js:86-90 | the nested loops produce \|heads\|·\|tails\| rows |
| Util.ExtendMember | util.js:86-90 | a row is produced exactly when its head is in heads and its tail is among the tails |
| Util.ProductLength | util.js:76-94 | a non-empty list of lists gives as many rows as the product of their lengths |
| Util.ProductMember | util.js:76-94 | the rows are exactly the choices of one element from each list, in list order |
| Util.ProductAt | util.js:82-91 | the first list varies slowest: row i·\|tails\| + j is [lists[0][i]] + tails[j] |
| Util.ProductOfEmpty | util.js:76-94 | any empty list empties the product |
| Util.ProductOfSingletons | util.js:76-94 | lists of one element each give the single row of those elements |
| Util.Permute | util.js:74-94 | returns the ordered cartesian product: [] for no lists, [[x] for x in L] for one list, otherwise each head before each tail |
| Util.CircularBuffer.constructor | util.js:97-102 | an empty, valid buffer of capacity n |
| Util.CircularBuffer.Push | util.js:105-114 | keeps the buffer valid (0 ≤ length ≤ n, pointer < n); full and not evicting: "no space" with pointer, length and slots unchanged; full and evicting: the contents lose their oldest element and gain x; otherwise x is appended |
| Util.CircularBuffer.IncrementPointer | util.js:116-118 | the pointer moves to (pointer + 1) mod n |
| Util.CircularBuffer.PopLeft | util.js:120-126 | a no-op when empty; otherwise removes the oldest element and decrements length |
| Util.CircularBuffer.Get | util.js:128-132 | "out of bounds" unless 0 ≤ index < length; otherwise the index-th oldest element |
| Util.CircularBuffer.Last | util.js:134-138 | "empty" when length is 0; otherwise the newest element, that is get(length − 1) |
| BarConst.MapKeys | barConst.js:43-49 | the entry-list `map` keeps the length and each digit, and applies the key function to each key |
| BarConst.MapOfKeys | barConst.js:27-49 | a `Map` built from entries has exactly the keys of its entries |
| BarConst.MapOfAt | barConst.js:27-49 | with distinct keys, each entry's key maps to that entry's value |
| BarConst.MapOfSize | barConst.js:39-41 | with distinct keys, the `Map`'s size is the number of entries |
| BarConst.OddToRight | barConst.js:15-20 | the definition of oddToRight: each 0 becomes 1, each 1 becomes 0, anything else `?`; characterised by BarConst.OddToRightInvolutive, BarConst.OnesComplement and BarConst.DerivedShapes, and through BarConst.RightTable it builds number set C |
| BarConst.OddToRightInvolutive | barConst.js:15-20 | complementing a binary string twice gives it back |
| BarConst.ReverseString | barConst.js:23-25 | the definition of reverseString: the characters in reverse order; characterised by BarConst.ReverseInvolutive, BarConst.OnesReverse and BarConst.DerivedShapes, and through BarConst.LeftEvenTable it builds number set B |
| BarConst.ReverseInvolutive | barConst.js:23-25 | reversing a string twice gives it back |
| BarConst.OnesComplement | barConst.js:15-20 | the complement of a binary string of length n with k ones has n − k ones |
| BarConst.OnesReverse | barConst.js:23-25 | reversal keeps the number of ones |
| BarConst.OddDigits | barConst.js:27-38 | ten entries; entry d is for digit d |
| BarConst.OddShapesLow | barConst.js:28-30 | the keys of digits 0–2 are seven 0/1 characters, start with 0, end with 1 and hold an odd number of ones |
| BarConst.OddShapesMid | barConst.js:31-33 | the same for digits 3–5 |
| BarConst.OddShapesHigh | barConst.js:34-37 | the same for digits 6–9 |
| BarConst.OddLiterals | barConst.js:27-38 | all ten entries: digit d at index d, with a key of that shape |
| BarConst.OddKeysDistinct | barConst.js:27-41 | the ten keys of number set A are pairwise distinct, so the size check passes |
| BarConst.RightKeysDistinct | barConst.js:43-45 | the ten keys of number set C are pairwise distinct |
| BarConst.LeftEvenKeysDistinct | barConst.js:47-49 | the ten keys of number set B are pairwise distinct |
| BarConst.OddTable | barConst.js:27-41 | ODD_STRINGS has size 10 and maps digit d's key to d |
| BarConst.RightTable | barConst.js:43-45 | RIGHT_STRINGS has size 10; digit d's key is the complement of its A key and maps to d |
| BarConst.LeftEvenTable | barConst.js:47-49 | LEFT_EVEN_STRINGS has size 10; digit d's key is the reverse of its C key and maps to d |
| BarConst.OddKeys | barConst.js:27-38 | a string is a key of ODD_STRINGS exactly when it is some digit's A key |
| BarConst.RightKeys | barConst.js:43-45 | a string is a key of RIGHT_STRINGS exactly when it is some digit's C key |
| BarConst.EvenKeys | barConst.js:47-49 | a string is a key of LEFT_EVEN_STRINGS exactly when it is some digit's B key |
| BarConst.TableKeys | barConst.js:27-49 | the three key characterisations together |
| BarConst.DerivedShapes | barConst.js:15-25 | the complement of an A-shaped string starts with 1 and has an even number of ones; its reverse starts with 0 and has an even number of ones |
| BarConst.KeyShapes | barConst.js:27-49 | every A key has an odd number of ones; every B and C key has an even number; A and B keys start with 0, C keys with 1; all have 7 binary characters |
| BarConst.TablesDisjoint | barConst.js:27-49 | no string is a key of two of the three tables |
| BarConst.TablesInjective | barConst.js:27-49 | within each table, two keys with the same digit are the same key |
| BarConst.AllStrings | barConst.js:4-12 | the definition of allStrings: [odd, reversed complement, complement]; characterised by BarConst.AllStringsTables and Laser.AllStringsTriple |
| BarConst.AllStringsTables | barConst.js:4-12 | allStrings of digit d's A key is [its A key, its B key, its C key] |
| BarConst.PrefixLiterals | barConst.js:52-63 | ten distinct keys of six 0/1 characters, each beginning with 1; entry d is for digit d |
| BarConst.PrefixTable | barConst.js:52-63 | ODD_EVEN_PREFIX has size 10, its keys have that shape, each digit has its key, and distinct keys map to distinct digits |
| Otsu.RollingSum.constructor | otsu.js:28-33 | a valid, empty window over a fresh array of `width` slots |
| Otsu.RollingSum.Push | otsu.js:35-43 | keeps the ring valid (sum is the window's total, length ≤ width, pointer < width); the window becomes the last `width` values of the old window plus x; only the slot at pointer is written, and once full that slot held the oldest value; the pointer becomes (pointer + 1) mod width |
| Otsu.RollingSum.Mean | otsu.js:45-47 | the window's total over its length; its floor is the Uint8 value stored |
| Otsu.RingPush | otsu.js:35-43 | one push of the ring data keeps the ring invariant, with the evicted value subtracted when full |
| Otsu.LayoutRotate | otsu.js:39-44 | in a full ring, the slot at pointer holds the oldest value, and overwriting it moves the layout on by one |
| Otsu.LastNAppend | otsu.js:35-43 | the last k values after another push depend only on the last k before it |
| Otsu.MeanFloorRange | otsu.js:50-64 | the floor of the mean of pixel values is a pixel value |
| Otsu.RollWindowLastN | otsu.js:56-63 | the window read for output j is the last `width` values of the pre-fill followed by line[..j] |
| Otsu.SmoothUpToAt | otsu.js:61-64 | output i of the second loop is the floor of the mean of its window |
| Otsu.SmoothSpecAt | otsu.js:50-64 | output i is the floor of the mean of the last `width` values of pre-fill + line[..i + 1] |
| Otsu.Smooth | otsu.js:50-64 | the two loops over a RollingSum return exactly that specification, one output per pixel |
| Otsu.SmoothRange | otsu.js:50-64 | every output lies in 0..255 |
| Otsu.SmoothSteady | otsu.js:56-64 | with line.length ≥ width and i ≥ width − 1, output i is the floored mean of line[i − width + 1..i] |
| Otsu.SmoothWarmUp | otsu.js:56-64 | with line.length ≥ width and i < width − 1, output i is the floored mean of line[0..width − 1], because the pre-fill loop fills the window first |
| Otsu.WarmUpWindow | otsu.js:56-63 | during warm-up the window is the rest of the pre-fill followed by line[..i + 1] |
| Otsu.SmoothThresh | otsu.js:66-74 | returns `Binarize` of the line against `smooth`: one entry per pixel, 1 when line[i] > smooth[i]·factor and 0 otherwise |
| Otsu.BinarizeBits | otsu.js:72-73 | every binarised entry is 0 or 1 |
| Otsu.SmoothConstant | otsu.js:50-64 | a constant line smooths to itself |
| Otsu.ConstantLineWhite | otsu.js:56-73 | a constant line of value c > 0 with factor < 1 binarises to all 1s |
| Otsu.ConstantPixelWhite | otsu.js:56-73 | the same, for one pixel |
| Preamble.RunWindow | barcode.js:79-84 | the ring never holds more than five runs |
| Preamble.InBoundAll | barcode.js:55-61 | within the held runs, runsInBound is the check that every width in a..b−1 lies in [min, max] |
| Preamble.RunsInBound | barcode.js:55-61 | the loop returns exactly that check, including the "out of bounds" error of `get` past the held runs |
| Preamble.BarError | barcode.js:64-69 | the definition of barError: no value when the widths total 0, otherwise the summed squared deviation from the mean divided by the mean; characterised by Preamble.DeviationThirds and Preamble.BarErrorTest |
| Preamble.DeviationThirds | barcode.js:64-69 | for three widths of total S, the summed squared deviation from S/3 is Σ(3w − S)²/9 |
| Preamble.BarErrorTest | barcode.js:64-69 | barError is defined exactly when S > 0; it is then below 2 exactly when Σ(3w − S)² < 6S |
| Preamble.GrowWellFormed | barcode.js:81-82 | widening the newest run for a pixel of its colour keeps the ring a faithful run-length encoding of the line read so far |
| Preamble.DropWellFormed | barcode.js:84 | evicting the oldest run keeps that description |
| Preamble.PushWellFormed | barcode.js:84 | a pixel of another colour pushes a run of width 1 and keeps that description |
| Preamble.StepWellFormed | barcode.js:81-84 | one pixel of the loop keeps the ring well formed: runs cover pixels of their colour, touch, alternate in colour and end at the current pixel |
| Preamble.RunWindowWellFormed | barcode.js:79-84 | the ring after every pixel is well formed |
| Preamble.FlatWindow | barcode.js:79-84 | on an evenly coloured line the ring is a single run |
| Preamble.FlatLineNoPreamble | barcode.js:73-93 | an evenly coloured line has no preamble |
| Preamble.PreambleOf | barcode.js:73-93 | the definition of findPreamble as a scan for the first passing pixel; characterised by Preamble.PreambleOfFirstHit, Preamble.PreambleOfNoHit, Preamble.PreambleOfIs and Preamble.PreambleOfNone |
| Preamble.PreambleOfFirstHit | barcode.js:73-93 | the answer is p exactly when some pixel is the first whose ring has five runs, a white run 0, runs 1–3 in [1, 10] and barError < 2, and p is run 1's start |
| Preamble.PreambleOfNoHit | barcode.js:73-93 | there is no answer exactly when no pixel passes the test |
| Preamble.PreambleOfIs | barcode.js:80-91 | at the first passing pixel the answer is run 1's start |
| Preamble.PreambleOfNone | barcode.js:80-93 | with no passing pixel there is no answer |
| Preamble.PreambleBoundary | barcode.js:81-90 | an answer p satisfies 0 < p < line.length, line[p − 1] = 1 and line[p] ≠ 1 |
| Preamble.Widen | barcode.js:82 | `runs.last().n += 1` widens the newest run in place and changes nothing else |
| Preamble.Extend | barcode.js:81-84 | one pixel grows the newest run or pushes a new one, evicting |
| Preamble.Guard | barcode.js:85-90 | returns the guard test on the current ring, and run 1's start when it passes |
| Preamble.FindPreamble | barcode.js:73-93 | the loop returns exactly the specified answer |
| Sections.Slice | barcode.js:115-117 | `slice` with non-negative bounds: the plain subsequence when in range, [] when empty or past the end |
| Sections.StepRuns | barcode.js:195-199 | one pixel keeps the sections a proper encoding: every width ≥ 1 and neighbours differ in colour |
| Sections.StepExpand | barcode.js:195-199 | one pixel extends the pixels the sections stand for by that pixel, adding at most one section |
| Sections.RunLengthRuns | barcode.js:195-199 | the encoding of a line is proper, no longer than the line, and non-empty for a non-empty line |
| Sections.RunLengthExpand | barcode.js:195-199 | the encoding of a line stands for exactly the line |
| Sections.ScanStops | barcode.js:200-201 | once there are more than 59 sections the loop has broken off |
| Sections.ScanBound | barcode.js:192-202 | the loop never holds more than 60 sections |
| Sections.ScanRunLength | barcode.js:192-202 | the sections are the encoding of a prefix of the line, which is the whole line unless 60 sections were reached |
| Sections.SectionsShape | barcode.js:192-202 | decode's sections are a proper encoding of at most 60 sections of a prefix of the line |
| Sections.ScanSections | barcode.js:192-202 | the loop returns exactly those sections |
| Sections.EanGroupsTotal | barcode.js:108 | the group lengths total 59 |
| Sections.StartNext | barcode.js:114-118 | group i + 1 starts where group i ends, within the 59 sections |
| Sections.GroupIs | barcode.js:110-121 | group i holds the widths of sections Start(i)..Start(i + 1), clamped to the sections present |
| Sections.GroupsPrefix | barcode.js:110-121 | the first i groups, concatenated, are the widths up to Start(i) |
| Sections.GroupsShape | barcode.js:110-121 | 15 groups; group i has at most EAN_GROUPS[i] widths, and exactly that many when there are ≥ 59 sections; together they are the first 59 widths |
| Sections.GetGroups | barcode.js:110-121 | the loop returns exactly those groups |
| Digits.RoundNearest | barcode.js:125 | `Math.round` gives an integer within 1/2, and no integer is closer |
| Digits.RoundTwice | barcode.js:124-132 | one or two targets, the first being round(f); all non-negative for f ≥ 0 |
| Digits.RoundTwiceTargets | barcode.js:124-132 | one target exactly when \|f − round(f)\| < 0.25; otherwise the two targets are ⌊f⌋ and ⌈f⌉, which differ by 1 |
| Digits.WidthsToString | barcode.js:135-142 | the definition of widthsToString: each width repeats its bit of the alternating template; characterised by Digits.WidthsToStringAt, Digits.WidthsToStringLength and Digits.WidthsToStringBinary |
| Digits.WidthsToStringAt | barcode.js:135-142 | the string has length Σwidths, and position Σwidths[..i] + k (k < widths[i]) holds template bit i |
| Digits.WidthsToStringLength | barcode.js:135-142 | the string's length is the total of the widths |
| Digits.WidthsToStringBinary | barcode.js:135-142 | the string is over {0, 1} |
| Digits.LookupHit | barcode.js:154-165 | a hit on the left is an A key (odd) or a B key (even) of its digit; a hit on the right is a C key, never odd |
| Digits.LookupMiss | barcode.js:154-165 | a miss is a string that is no key of the half's tables |
| Digits.SevensMember | barcode.js:152 | the filter keeps exactly the rows summing to 7 |
| Digits.MatchesMember | barcode.js:153-165 | the lookups keep exactly the candidates some row spells |
| Digits.LikelyDigits | barcode.js:150-166 | the definition of likelyDigits: every row of the product of floor/ceil roundings that sums to 7 and whose string is a table key; characterised by Digits.LikelyDigitsMember |
| Digits.LikelyDigitsMember | barcode.js:150-166 | a candidate is returned exactly when some row of the product of roundings sums to 7 and spells it |
| Digits.SevenModulesPositive | barcode.js:169-173 | when round(tot / bar) = 7, tot > 0, so the module width is positive |
| Digits.DecodeDigit | barcode.js:168-175 | the definition of decodeDigit: no candidates unless round(Σlengths / bar) = 7, then likelyDigits at bar Σlengths / 7; characterised by Digits.DecodeDigitSound |
| Digits.DecodeDigitSound | barcode.js:168-175 | every candidate has round(Σlengths / bar) = 7 and a positive Σlengths, comes from a row summing to 7 that spells it in the side's tables, and is odd only for an A-table hit on the left |
| Digits.LikelyDigitsRow | barcode.js:150-166 | every candidate of likelyDigits comes with a row of rounding targets, one per width, summing to 7 and spelling it |
| Digits.OddHit | barcode.js:155-163 | a lookup hit marked odd comes from the left half's ODD_STRINGS |
| Digits.RoundTwiceWhole | barcode.js:124-132 | a whole number of modules has itself as its only rounding target |
| Digits.CleanChoices | barcode.js:150-152 | widths drawn at exactly k[i] modules of m pixels, divided by m, give the single combination k |
| Digits.DecodeDigitClean | barcode.js:150-175 | a noiseless digit group (module counts totalling 7, m pixels per module, bar width m) gives exactly the lookup of the string its counts spell: one candidate for a key, none otherwise |
| Decoder.FirstAndLast | barcode.js:95-106 | both are absent exactly when nothing matches; otherwise first is the smallest and last the largest matching index |
| Decoder.CheckOkMod10 | barcode.js:177-185 | checkDigit passes exactly when the 1/3-weighted sum of the first digits plus the last digit is ≡ 0 mod 10 |
| Decoder.CheckDigit | barcode.js:177-185 | the loop returns exactly that verdict |
| Decoder.ParityRowsMember | barcode.js:213-220 | a row is collected exactly when some combination's first six parities are a key of the prefix table and the row is that digit followed by the combination's digits |
| Decoder.ParityPossible | barcode.js:213-220 | the loop collects exactly those rows, in order |
| Decoder.CheckedMember | barcode.js:223 | the filter keeps exactly the rows that pass checkDigit |
| Decoder.CheckPossible | barcode.js:223 | the filter returns exactly those rows, in order |
| Decoder.MatchingFirst | barcode.js:228 | no row matches exactly when none leads with the code; otherwise the first match is the first row leading with it |
| Decoder.ChooseCountry | barcode.js:226-231 | the chosen row is the first row with the likely country code when one exists, else the first row |
| Decoder.Format | barcode.js:232-234 | the definition of the result string `D-DDDDDD-DDDDDD`; characterised by Decoder.FormatParse and Decoder.ParseFormat |
| Decoder.FormatParse | barcode.js:232-234 | a 13-digit row is formatted as `D-DDDDDD-DDDDDD` and reads back to the same row |
| Decoder.ParseFormat | barcode.js:232-234 | every text that reads back is the format of its row |
| Decoder.GroupWidthPositive | barcode.js:196-199 | every width in a group is at least one pixel |
| Decoder.LineGroupsShape | barcode.js:203-205 | a clipped line gives 15 groups, a non-empty first group and a positive bar size |
| Decoder.ReadDigits | barcode.js:203-209 | returns the candidate lists of the twelve digit groups |
| Decoder.Search | barcode.js:210-234 | returns the specified answer for the candidate lists |
| Decoder.Decode | barcode.js:188-235 | returns the specified answer of decode |
| Decoder.DecodeBadClip | barcode.js:189-191 | "bad-clip" exactly when pixel0 is past the line or line[pixel0] ≠ 0 |
| Decoder.RowOfShape | barcode.js:212-220 | a collected row has 13 digits: the prefix digit of its combination's parities, then one candidate digit from each list |
| Decoder.ResolveSound | barcode.js:210-234 | a decoded text reads back to a 13-digit row that passes checkDigit and comes from a combination whose parities give its leading digit |
| Decoder.ResolveCountry | barcode.js:226-231 | when a passing row leads with the likely code, the decoded row leads with it too |
| Decoder.ResolveParity | barcode.js:210-222 | "parity" exactly when no list is empty and no combination has a parity pattern in the table |
| Decoder.ResolveCheck | barcode.js:210-225 | "check" exactly when no list is empty, some row has a known parity, and no such row passes checkDigit |
| Decoder.ResolveComplete | barcode.js:210-234 | completeness: when some combination has a known parity pattern and its row passes checkDigit, decode returns a text |
| Decoder.SingletonRows | barcode.js:210-220 | twelve one-candidate lists give exactly one parity row, the leading digit of their pattern followed by their digits |
| Decoder.ResolveOneRow | barcode.js:223-234 | when the only parity row passes checkDigit, decode returns its text whatever the likely country code |
| Decoder.ResolveClean | barcode.js:210-234 | one candidate per digit, a known parity pattern and a valid check digit: decode returns the text of that 13-digit row |
| Decoder.CleanRow | barConst.js:52-63 | the left-half parities A, B, A, A, B, B are leading digit 4's pattern, so the candidates stand for 4006381333931 |
| Decoder.WeightedNext | barcode.js:178-185 | one more digit adds its 1/3-weighted value to the weighted sum |
| Decoder.CleanCheck | barcode.js:178-185 | 4006381333931 passes checkDigit |
| Decoder.CleanText | barcode.js:232-234 | the row 4006381333931 is written "4-006381-333931" |
| Decoder.ResolveCleanExample | barcode.js:210-234 | a clean reading of 4006381333931 decodes to "4-006381-333931" |
| Decoder.CandidatesClean | barcode.js:206-209 | twelve noiseless digit groups read at their module width give one candidate each, the one their module counts spell |
| Decoder.BarSizeClean | barcode.js:204-205 | guards drawn one module per bar at m pixels per module give barSize m |
| Decoder.DecodeCleanGroups | barcode.js:203-234 | the groups of a noiseless rendering of a valid code (guards and digits at m pixels per module) decode back to that code's text |
| Decoder.LineToBarcode | barcode.js:239-247 | returns the specified answer: "no-preamble", or decode of the line thresholded with a 100-pixel window and factor 0.9, from the guard's start |
| Decoder.LineToBarcodeNeverBadClip | barcode.js:239-247 | lineToBarcode never answers "bad-clip" |
| Decoder.ConstantLineNoPreamble | barcode.js:239-247 | an evenly lit line (every pixel the same positive level) binarises to all 1s and answers "no-preamble" |
| Laser.IsBarcode | laser.py:14-16 | the definition of is_barcode: 0.2 < ratio < 0.95; the windows of Laser.FindRunWindows are built from it |
| Laser.IsWhite | laser.py:18-19 | the definition of is_white: ratio ≥ 0.99; a window of Laser.FindRunWindows opens and closes on it |
| Laser.FindRun | laser.py:21-40 | the loop returns exactly `RunOf`, the answer of the state machine |
| Laser.AdvanceShaped | laser.py:25-40 | one step keeps the state shaped: an open run starts at a white ratio and holds every ratio since, all in the bar band |
| Laser.StateShape | laser.py:21-40 | the state before every index is shaped |
| Laser.RunFromFirst | laser.py:25-32 | the loop answers at its first closing index, and answers None exactly when no index closes |
| Laser.WindowState | laser.py:21-40 | inside a window, with nothing closed before its end, the run opened at its start holds every ratio since |
| Laser.CloseWithin | laser.py:31-32 | every window closes a run at or before its end |
| Laser.FirstWindow | laser.py:21-40 | the first closing index ends a window whose run is the ratios strictly inside it, and no window ends earlier |
| Laser.FindRunWindows | laser.py:21-40 | None exactly when there is no window (white, 15–25 ratios in (0.2, 0.95), white); otherwise (start, run) is the earliest-ending window and run is its inside |
| Laser.GroupsLayout | laser.py:43 | the tuple `(3,) + (4,) * 6 + (5,) + (4,) * 6 + (3,)` is the JavaScript EAN_GROUPS, which totals 59 |
| Laser.GroupsFull | laser.py:49-50 | every group gets its full length exactly when there are at least 59 sections |
| Laser.GroupStep | laser.py:46-48 | one pass of the loop appends the widths of the next group's sections and moves i past them |
| Laser.GetGroups | laser.py:42-51 | returns the groups exactly when there are ≥ 59 sections, and an AssertionError otherwise |
| Laser.AllStrings | laser.py:53-62 | the definition of all_strings: (odd, reversed complement, complement); characterised by Laser.AllStringsTriple |
| Laser.AllStringsTriple | laser.py:53-62 | all_strings is (odd, reversed complement, complement); the complement of a string of length n with k ones has n − k ones; the triple equals the JavaScript allStrings |
| Laser.OddList | laser.py:64-76 | ten strings (the module-load assert holds); string i is digit i's number set A key |
| Laser.Enumerate | laser.py:78-81 | row i is (i, all_strings(odds[i])) |
| Laser.DigitToStringsAt | laser.py:78-81 | row d of DIGIT_TO_STRINGS is d with its A, B and C keys |
| Laser.PairsAt | laser.py:99-103 | the comprehension's pair 3i + j is string j of row i, with row i's digit |
| Laser.PairsLength | laser.py:99-103 | the comprehension yields three pairs per row |
| Laser.PairsInterleaved | laser.py:99-103 | on DIGIT_TO_STRINGS's rows, pair 3d + j is digit d's key in table j |
| Laser.LookupEntries | laser.py:99-103 | DIGIT_LOOKUP's pairs are interleaved that way |
| Laser.InterleavedDistinct | laser.py:105 | the thirty keys are pairwise distinct |
| Laser.KeysDiffer | laser.py:105 | different (table, digit) pairs have different keys |
| Laser.InterleavedTable | laser.py:99-105 | the dictionary has 30 keys, each mapping to its digit |
| Laser.InterleavedKeys | laser.py:99-103 | its keys are exactly the thirty table keys |
| Laser.DigitLookupTable | laser.py:99-105 | `len(DIGIT_LOOKUP) == 30`, so the "ambiguous lookup string" assertion holds, and every key maps to its digit |
| Laser.DigitLookupKeys | laser.py:99-103 | a string is a key of DIGIT_LOOKUP exactly when it is one of the thirty table keys |
| Laser.OddSetKeys | laser.py:97 | ODD_SET holds exactly the keys of the JavaScript ODD_STRINGS |
| Laser.PrefixAgrees | laser.py:84-95 | the dictionary equals the JavaScript ODD_EVEN_PREFIX and has 10 keys |
| Laser.RoundedWidth | laser.py:112 | `int(round(len_ / mybar))` is the first rounding target of roundTwice |
| Laser.DecodeDigit | laser.py:107-119 | a success implies a non-empty group and a positive module width; its full meaning is stated by Laser.DecodeDigitSound and Laser.DecodeDigitAgrees |
| Laser.DecodeDigitSound | laser.py:107-119 | past both asserts, round(tot / bar) = 7 and the rounded widths total 7; a result (d, odd) has odd exactly when the string is d's A key, and otherwise the string is d's B or C key; a KeyError means the string is no table key |
| Laser.LookupString | laser.py:119 | the definition of `DIGIT_LOOKUP[string], (string in ODD_SET)`, a KeyError when the string is no key; characterised by Laser.LookupStringSound |
| Laser.LookupStringSound | laser.py:119 | a KeyError exactly when the string is none of the thirty keys; a hit gives the key's digit, odd exactly for A keys |
| Laser.DecodeDigitAgrees | laser.py:107-119 | when decode_digit succeeds and the JavaScript side's tables hold its string, the JavaScript decodeDigit returns the same digit and parity among its candidates |
| Laser.RoundedCandidate | barcode.js:168-174 | a candidate spelled by the singly rounded widths is among decodeDigit's candidates |
| Laser.RoundedRowChosen | barcode.js:151 | the singly rounded widths are one of the rows likelyDigits tries |

## Left out

- `otsu()` and `util.histoVariance`: Float32Array scoring, not on the decode path.
- `util.split`: unused by the decoder; its slice bounds are non-integer floats.
- imghelp.js: the ImageData adapter. Its Uint8ClampedArray rounding is image plumbing.
- webpack.config.js: build configuration.
- laser.py `main`, `split` and `decode`: image I/O, display and printing over numpy arrays.
- barcode.js `findRun`, `isBarcode` and `isWhite`: deprecated and unused. laser.py's `find_run` is modelled instead.
- Floating point: every ratio is an exact real. `histo`'s index, `roundTwice` and the thresholds are exact rational computations.
- The flattening of `[].concat.apply` in `permute`: elements are never arrays here.
- Run objects: `findPreamble`'s runs are values in the ring, so aliasing of `Run` objects is not modelled. The in-place `runs.last().n += 1` is a write of the ring's last slot (`Preamble.Widen`).
- decode's `options`: only `likelyCountryCode` is kept, as an optional integer.
- The barConst.js tables are passed to the digit and decode lemmas as a parameter. `Digits.TABLES` is the barConst.js instance.
- BarConst.KeyShapes: states the length, alphabet, first module and parity of ones of every key, not that each key has exactly four runs.
- Laser.AllStrings: requires a binary string. The Python `KeyError` for other characters is not modelled; every string it is applied to is binary.
- Laser.DecodeDigit: requires bar > 0. The Python would divide by zero.
- Laser.RoundedWidth: Python 2 `round` rounds halves away from zero. For the non-negative ratios here this is `Floor(x + 1/2)`, which is what is modelled.
- Util.CircularBuffer.constructor: requires n > 0. With n == 0 the source's `push(x, true)` writes `values[NaN]` and sets length to 1; that case is not modelled. `findPreamble` always passes 5.
- Decoder.Decode: completeness is proved from the section widths on (`Decoder.DecodeCleanGroups`): the groups of a noiseless rendering decode back to their code. That a noiseless pixel rendering of a code yields those groups (run-length sections and `getGroups` over a drawn line) is not proved, nor is anything about the smoothing threshold on such a line.
- Otsu.RollingSum.constructor: requires width > 0. With width 0 the source builds an empty `Uint8Array`, `push` computes `% 0` and the sum and mean become NaN; that degenerate ring is not modelled. `lineToBarcode` always passes width 100.
- Otsu.Smooth: requires width > 0. With width 0 the source's NaN means store as 0 in the `Uint8Array`, so it returns all zeros; that case is not modelled.
- Otsu.SmoothThresh: requires width > 0. With width 0 the source's threshold is all zeros, so a pixel is 1 exactly when it is positive; that case is not modelled.
- Util.Histo: requires a non-empty array, as its comment says; the empty case is not modelled.

## Findings

| source | as written | input that shows it | evidently intended | confidence | as-written member | corrected member |
|---|---|---|---|---|---|---|
| util.js:17-18 | `Math.floor((x - min) / range * nbins)` is nbins for x == max, so the write to the Uint16Array is dropped (and every write is NaN-indexed when max == min) | `histo([0, 1], 2)`: bins total 1, not 2 | every value counted, with the maximum in the last bin, so that sum(bins) == n | medium, not executed | Util.HistoDropsMax | Util.ClampedBinsTotal |

`Util.Histo` itself keeps the behaviour as written, since it models the code. Its only consumer in the repository is `otsu()`, which is not part of this model.
