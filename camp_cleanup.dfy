/** Day 4 (camp cleanup): every line holds a pair of section assignments,
    `a-b,c-d`, each an inclusive range of section numbers. `Part1` counts
    the pairs in which one range fully contains the other, `Part2` the
    pairs whose ranges overlap. */
module CampCleanup {
  import opened Text

  /** Largest `u32`. */
  const U32_MAX: nat := 0xFFFF_FFFF

  const COMMA: byte := ','
  const DASH: byte := '-'

  /** `RangeInclusive<u32>`: the sections `start..=end`. Nothing makes
      `start <= end`; a range whose start is past its end holds no section. */
  datatype Range = Range(start: nat, end: nat)

  /** `RangeInclusive::contains`. */
  predicate Holds(r: Range, x: nat)
  {
    r.start <= x <= r.end
  }

  predicate WellFormed(r: Range)
  {
    r.start <= r.end
  }

  /** Both ends are `u32` values. */
  predicate Fits(r: Range)
  {
    r.start <= U32_MAX && r.end <= U32_MAX
  }

  /** The three panics of `parse_assignment_pair`. */
  datatype Error =
    | NoComma(pair: seq<byte>)          // `split_once(',')` found no comma
    | NoDash(assignment: seq<byte>)     // `split_once('-')` found no dash
    | NotASection(text: seq<byte>)      // `parse::<u32>()` failed

  // ---------------------------------------------------------------------
  // Parsing

  /** One section number: `parse::<u32>()`. */
  function ParseSection(s: seq<byte>): (r: Result<nat, Error>)
    ensures r.Ok? <==> 0 < |s| && AllDigits(s) && DecimalValue(s) <= U32_MAX
    ensures r.Ok? ==> r.value == DecimalValue(s)
    ensures r.Err? ==> r.error == NotASection(s)
  {
    match ParseUnsigned(s, U32_MAX)
    case None => Err(NotASection(s))
    case Some(v) => Ok(v)
  }

  /** One assignment `start-end`: split at the first dash, then the start
      is parsed before the end. */
  function ParseRange(assignment: seq<byte>): (r: Result<Range, Error>)
    ensures (r.Err? && r.error.NoDash?) <==> DASH !in assignment
    ensures r.Err? && r.error.NoDash? ==> r.error.assignment == assignment
    ensures r.Err? ==> !r.error.NoComma?
    ensures r.Ok? ==> Fits(r.value)
  {
    match SplitOnce(assignment, DASH)
    case None => Err(NoDash(assignment))
    case Some((first, second)) =>
      match ParseSection(first)
      case Err(e) => Err(e)
      case Ok(start) =>
        match ParseSection(second)
        case Err(e) => Err(e)
        case Ok(end) => Ok(Range(start, end))
  }

  /** `parse_assignment_pair`: split at the first comma, then the first
      assignment is parsed before the second. The error is the first of
      the panics the source meets. */
  function ParseAssignmentPair(pair: seq<byte>): (r: Result<(Range, Range), Error>)
    ensures (r.Err? && r.error.NoComma?) <==> COMMA !in pair
    ensures r.Err? && r.error.NoComma? ==> r.error.pair == pair
    ensures r.Ok? ==> Fits(r.value.0) && Fits(r.value.1)
  {
    match SplitOnce(pair, COMMA)
    case None => Err(NoComma(pair))
    case Some((first, second)) =>
      match ParseRange(first)
      case Err(e) => Err(e)
      case Ok(s1) =>
        match ParseRange(second)
        case Err(e) => Err(e)
        case Ok(s2) => Ok((s1, s2))
  }

  /** A section number fit for `ParseSection`. */
  predicate Section(s: seq<byte>)
  {
    0 < |s| && AllDigits(s) && DecimalValue(s) <= U32_MAX
  }

  lemma DigitsHaveNoSeparator(s: seq<byte>)
    requires AllDigits(s)
    ensures COMMA !in s && DASH !in s
  {
  }

  lemma ParseRangeOfParts(assignment: seq<byte>, a: seq<byte>, b: seq<byte>)
    requires assignment == a + [DASH] + b && Section(a) && Section(b)
    ensures ParseRange(assignment) == Ok(Range(DecimalValue(a), DecimalValue(b)))
  {
    DigitsHaveNoSeparator(a);
    SplitOnceOf(a, DASH, b);
  }

  lemma NoCommaAroundDash(a: seq<byte>, b: seq<byte>)
    requires COMMA !in a && COMMA !in b
    ensures COMMA !in a + [DASH] + b
  {
  }

  lemma ParsePairOf(pair: seq<byte>, first: seq<byte>, second: seq<byte>)
    requires pair == first + [COMMA] + second && COMMA !in first
    requires ParseRange(first).Ok? && ParseRange(second).Ok?
    ensures ParseAssignmentPair(pair) == Ok((ParseRange(first).value, ParseRange(second).value))
  {
    SplitOnceOf(first, COMMA, second);
  }

  /** Four section numbers put together as `a-b,c-d` parse to the two
      ranges they denote. */
  lemma ParseOfParts(pair: seq<byte>, a: seq<byte>, b: seq<byte>, c: seq<byte>, d: seq<byte>, s1: Range, s2: Range)
    requires Section(a) && Section(b) && Section(c) && Section(d)
    requires s1 == Range(DecimalValue(a), DecimalValue(b)) && s2 == Range(DecimalValue(c), DecimalValue(d))
    requires pair == (a + [DASH] + b) + [COMMA] + (c + [DASH] + d)
    ensures ParseAssignmentPair(pair) == Ok((s1, s2))
  {
    var first, second := a + [DASH] + b, c + [DASH] + d;
    DigitsHaveNoSeparator(a);
    DigitsHaveNoSeparator(b);
    ParseRangeOfParts(first, a, b);
    ParseRangeOfParts(second, c, d);
    NoCommaAroundDash(a, b);
    ParsePairOf(pair, first, second);
  }

  /** An assignment that parses is two section numbers around a dash. */
  lemma RangeParts(assignment: seq<byte>) returns (a: seq<byte>, b: seq<byte>)
    requires ParseRange(assignment).Ok?
    ensures Section(a) && Section(b) && assignment == a + [DASH] + b
    ensures ParseRange(assignment).value == Range(DecimalValue(a), DecimalValue(b))
  {
    a, b := SplitOnce(assignment, DASH).value.0, SplitOnce(assignment, DASH).value.1;
  }

  /** Every line that parses has the form `a-b,c-d` with four section
      numbers, and its ranges are the numbers they denote. */
  lemma PartsOfParse(pair: seq<byte>) returns (a: seq<byte>, b: seq<byte>, c: seq<byte>, d: seq<byte>)
    requires ParseAssignmentPair(pair).Ok?
    ensures Section(a) && Section(b) && Section(c) && Section(d)
    ensures pair == (a + [DASH] + b) + [COMMA] + (c + [DASH] + d)
    ensures ParseAssignmentPair(pair).value
         == (Range(DecimalValue(a), DecimalValue(b)), Range(DecimalValue(c), DecimalValue(d)))
  {
    var first, second := SplitOnce(pair, COMMA).value.0, SplitOnce(pair, COMMA).value.1;
    a, b := RangeParts(first);
    c, d := RangeParts(second);
  }

  /** The text of an assignment pair, `start-end,start-end`, in decimal. */
  function FormatRange(r: Range): seq<byte>
  {
    Decimal(r.start) + [DASH] + Decimal(r.end)
  }

  function FormatPair(p: (Range, Range)): seq<byte>
  {
    FormatRange(p.0) + [COMMA] + FormatRange(p.1)
  }

  /** Parsing the text of a pair of `u32` ranges gives the pair back. */
  lemma ParseFormatPair(p: (Range, Range))
    requires Fits(p.0) && Fits(p.1)
    ensures ParseAssignmentPair(FormatPair(p)) == Ok(p)
  {
    DecimalValueOfDecimal(p.0.start);
    DecimalValueOfDecimal(p.0.end);
    DecimalValueOfDecimal(p.1.start);
    DecimalValueOfDecimal(p.1.end);
    ParseOfParts(FormatPair(p), Decimal(p.0.start), Decimal(p.0.end), Decimal(p.1.start), Decimal(p.1.end), p.0, p.1);
  }

  // ---------------------------------------------------------------------
  // The two tests on a pair of ranges

  /** The containment test of `part_1`. */
  predicate FullyContains(s1: Range, s2: Range)
    ensures FullyContains(s1, s2) && WellFormed(s1) && WellFormed(s2) ==> HasOverlap(s1, s2)
  {
    (s1.start <= s2.start && s1.end >= s2.end) || (s2.start <= s1.start && s2.end >= s1.end)
  }

  /** The overlap test of `part_2`. */
  predicate HasOverlap(s1: Range, s2: Range)
    ensures HasOverlap(s1, s2) <==> s1.start <= s2.end && s2.start <= s1.end
  {
    (s1.start <= s2.end && s1.end >= s2.start) || (s2.start <= s1.end && s2.end >= s1.start)
  }

  /** Every section of `inner` is a section of `outer`. */
  ghost predicate Within(inner: Range, outer: Range)
  {
    forall x :: Holds(inner, x) ==> Holds(outer, x)
  }

  /** The containment test is symmetric for all ranges, reversed ones
      included. */
  lemma ContainsSymmetric(s1: Range, s2: Range)
    ensures FullyContains(s1, s2) == FullyContains(s2, s1)
  {
  }

  /** The containment test is symmetric, and for well-formed ranges it
      holds exactly when the sections of one range are among those of the
      other. */
  lemma ContainsIffWithin(s1: Range, s2: Range)
    requires WellFormed(s1) && WellFormed(s2)
    ensures FullyContains(s1, s2) == FullyContains(s2, s1)
    ensures FullyContains(s1, s2) <==> Within(s1, s2) || Within(s2, s1)
  {
    if Within(s2, s1) {
      assert Holds(s2, s2.start) && Holds(s2, s2.end);
    }
    if Within(s1, s2) {
      assert Holds(s1, s1.start) && Holds(s1, s1.end);
    }
  }

  /** The overlap test is symmetric, and its two halves say the same:
      each range starts no later than the other ends. */
  lemma OverlapNormalForm(s1: Range, s2: Range)
    ensures HasOverlap(s1, s2) == HasOverlap(s2, s1)
    ensures HasOverlap(s1, s2) <==> s1.start <= s2.end && s2.start <= s1.end
  {
  }

  /** For well-formed ranges the overlap test holds exactly when the two
      ranges share a section. */
  lemma OverlapIffShared(s1: Range, s2: Range)
    requires WellFormed(s1) && WellFormed(s2)
    ensures HasOverlap(s1, s2) <==> exists x :: Holds(s1, x) && Holds(s2, x)
  {
    if HasOverlap(s1, s2) {
      var x := if s1.start <= s2.start then s2.start else s1.start;
      assert Holds(s1, x) && Holds(s2, x);
    }
  }

  /** For well-formed ranges, containment implies overlap. */
  lemma ContainsImpliesOverlap(s1: Range, s2: Range)
    requires WellFormed(s1) && WellFormed(s2)
    ensures FullyContains(s1, s2) ==> HasOverlap(s1, s2)
  {
    if FullyContains(s1, s2) {
      OverlapIffShared(s1, s2);
      if s1.start <= s2.start && s1.end >= s2.end {
        assert Holds(s1, s2.start) && Holds(s2, s2.start);
      } else {
        assert Holds(s1, s1.start) && Holds(s2, s1.start);
      }
    }
  }

  /** Without well-formedness the implication fails: `5-3` holds no
      section, yet the containment test finds it inside `4-4`. */
  lemma IllFormedContainsWithoutOverlap()
    ensures FullyContains(Range(5, 3), Range(4, 4)) && !HasOverlap(Range(5, 3), Range(4, 4))
  {
  }

  // ---------------------------------------------------------------------
  // Counting

  /** `test as usize` for one pair. */
  function Indicator(p: (Range, Range), test: (Range, Range) -> bool): nat
  {
    if test(p.0, p.1) then 1 else 0
  }

  /** The indicators summed over the pairs: how many of them pass. */
  function Count(ps: seq<(Range, Range)>, test: (Range, Range) -> bool): (n: nat)
    ensures n <= |ps|
  {
    if ps == [] then 0 else Count(ps[..|ps| - 1], test) + Indicator(ps[|ps| - 1], test)
  }

  /** No pair counts exactly when no pair passes. */
  lemma {:induction false} CountZero(ps: seq<(Range, Range)>, test: (Range, Range) -> bool)
    ensures Count(ps, test) == 0 <==> forall i :: 0 <= i < |ps| ==> !test(ps[i].0, ps[i].1)
    decreases |ps|
  {
    if ps != [] {
      var init := ps[..|ps| - 1];
      CountZero(init, test);
      assert forall i :: 0 <= i < |init| ==> init[i] == ps[i];
    }
  }

  /** Every pair counts exactly when every pair passes. */
  lemma {:induction false} CountAll(ps: seq<(Range, Range)>, test: (Range, Range) -> bool)
    ensures Count(ps, test) == |ps| <==> forall i :: 0 <= i < |ps| ==> test(ps[i].0, ps[i].1)
    decreases |ps|
  {
    if ps != [] {
      var init := ps[..|ps| - 1];
      CountAll(init, test);
      assert forall i :: 0 <= i < |init| ==> init[i] == ps[i];
    }
  }

  /** A test that passes wherever another passes counts at least as many. */
  lemma {:induction false} CountMonotone(ps: seq<(Range, Range)>, weak: (Range, Range) -> bool,
                                         strong: (Range, Range) -> bool)
    requires forall i :: 0 <= i < |ps| ==> weak(ps[i].0, ps[i].1) ==> strong(ps[i].0, ps[i].1)
    ensures Count(ps, weak) <= Count(ps, strong)
    decreases |ps|
  {
    if ps != [] {
      var init := ps[..|ps| - 1];
      assert forall i :: 0 <= i < |init| ==> init[i] == ps[i];
      CountMonotone(init, weak, strong);
    }
  }

  // ---------------------------------------------------------------------
  // The two parts

  /** The value one line adds: the pair parsed, then `test as usize`. */
  function LineValue(line: seq<byte>, test: (Range, Range) -> bool): (r: Result<nat, Error>)
    ensures r.Ok? <==> ParseAssignmentPair(line).Ok?
    ensures r.Ok? ==> r.value <= 1
  {
    match ParseAssignmentPair(line)
    case Err(e) => Err(e)
    case Ok(p) => Ok(Indicator(p, test))
  }

  function ContainsValue(line: seq<byte>): (r: Result<nat, Error>)
    ensures r.Ok? ==> r.value <= 1
  {
    LineValue(line, FullyContains)
  }

  function OverlapValue(line: seq<byte>): (r: Result<nat, Error>)
    ensures r.Ok? ==> r.value <= 1
  {
    LineValue(line, HasOverlap)
  }

  /** The pairs of all lines, or the first panic. */
  function Pairs(input: seq<byte>): (r: Result<seq<(Range, Range)>, Error>)
  {
    MapAll(Lines(input), ParseAssignmentPair)
  }

  /** The sum of per-line values is the number of pairs that pass, and
      the sum fails exactly where parsing fails, with the same error. */
  lemma {:induction false} SumOfLineValues(xs: seq<seq<byte>>, f: seq<byte> -> Result<nat, Error>,
                                           test: (Range, Range) -> bool)
    requires forall k :: 0 <= k < |xs| ==> f(xs[k]) == LineValue(xs[k], test)
    ensures MapAll(xs, f).Ok? <==> MapAll(xs, ParseAssignmentPair).Ok?
    ensures MapAll(xs, f).Err? ==> MapAll(xs, f).error == MapAll(xs, ParseAssignmentPair).error
    ensures MapAll(xs, f).Ok? ==> Sum(MapAll(xs, f).value) == Count(MapAll(xs, ParseAssignmentPair).value, test)
    decreases |xs|
  {
    if xs != [] {
      var init := xs[..|xs| - 1];
      assert forall k :: 0 <= k < |init| ==> init[k] == xs[k];
      SumOfLineValues(init, f, test);
      assert f(xs[|xs| - 1]) == LineValue(xs[|xs| - 1], test);
    }
  }

  /** `part_1`: the number of lines whose ranges contain one another. */
  function Part1(input: seq<byte>): (r: Result<nat, Error>)
    ensures r.Ok? <==> forall i :: 0 <= i < |Lines(input)| ==> ParseAssignmentPair(Lines(input)[i]).Ok?
    ensures r.Ok? ==> r.value <= |Lines(input)|
    ensures Lines(input) == [] ==> r == Ok(0)
  {
    match MapAll(Lines(input), ContainsValue)
    case Err(e) => Err(e)
    case Ok(vs) =>
      SumBounds(vs, 0, 1);
      Ok(Sum(vs))
  }

  /** `part_2`: the number of lines whose ranges overlap. */
  function Part2(input: seq<byte>): (r: Result<nat, Error>)
    ensures r.Ok? <==> forall i :: 0 <= i < |Lines(input)| ==> ParseAssignmentPair(Lines(input)[i]).Ok?
    ensures r.Ok? ==> r.value <= |Lines(input)|
    ensures Lines(input) == [] ==> r == Ok(0)
  {
    match MapAll(Lines(input), OverlapValue)
    case Err(e) => Err(e)
    case Ok(vs) =>
      SumBounds(vs, 0, 1);
      Ok(Sum(vs))
  }

  /** `part_1` counts the parsed pairs that pass the containment test; it
      fails with the first line's panic. */
  lemma Part1Counts(input: seq<byte>)
    ensures Part1(input).Ok? <==> Pairs(input).Ok?
    ensures Part1(input).Err? ==> Part1(input).error == Pairs(input).error
    ensures Part1(input).Ok? ==> Part1(input).value == Count(Pairs(input).value, FullyContains)
  {
    SumOfLineValues(Lines(input), ContainsValue, FullyContains);
  }

  /** `part_2` counts the parsed pairs that pass the overlap test; it fails
      with the first line's panic. */
  lemma Part2Counts(input: seq<byte>)
    ensures Part2(input).Ok? <==> Pairs(input).Ok?
    ensures Part2(input).Err? ==> Part2(input).error == Pairs(input).error
    ensures Part2(input).Ok? ==> Part2(input).value == Count(Pairs(input).value, HasOverlap)
  {
    SumOfLineValues(Lines(input), OverlapValue, HasOverlap);
  }

  /** Both parts fail on the same inputs with the same error, and when
      every range is well formed `part_1` is at most `part_2`. */
  lemma Part1AtMostPart2(input: seq<byte>)
    ensures Part1(input).Ok? <==> Part2(input).Ok?
    ensures Part1(input).Err? ==> Part1(input).error == Part2(input).error
    ensures Part1(input).Ok? && (forall i :: 0 <= i < |Pairs(input).value| ==>
                                   WellFormed(Pairs(input).value[i].0) && WellFormed(Pairs(input).value[i].1))
            ==> Part1(input).value <= Part2(input).value
  {
    Part1Counts(input);
    Part2Counts(input);
    if Pairs(input).Ok? {
      var ps := Pairs(input).value;
      if forall i :: 0 <= i < |ps| ==> WellFormed(ps[i].0) && WellFormed(ps[i].1) {
        forall i | 0 <= i < |ps| ensures FullyContains(ps[i].0, ps[i].1) ==> HasOverlap(ps[i].0, ps[i].1) {
          ContainsImpliesOverlap(ps[i].0, ps[i].1);
        }
        CountMonotone(ps, FullyContains, HasOverlap);
      }
    }
  }

  // ---------------------------------------------------------------------
  // The examples of the tests

  const Pair1: seq<byte> := "2-4,6-8"
  const Pair2: seq<byte> := "2-3,4-5"
  const Pair3: seq<byte> := "5-7,7-9"
  const Pair4: seq<byte> := "2-8,3-7"
  const Pair5: seq<byte> := "6-6,4-6"
  const Pair6: seq<byte> := "2-6,4-8"
  /** The first line of the multi-digit variant. */
  const Pair1Wide: seq<byte> := "2-40,6-8"

  lemma ShortPairParses(line: seq<byte>, a: byte, b: byte, c: byte, d: byte)
    requires IsDigit(a) && IsDigit(b) && IsDigit(c) && IsDigit(d)
    requires |line| == 7 && line[0] == a && line[2] == b && line[4] == c && line[6] == d
    requires line[1] == DASH && line[3] == COMMA && line[5] == DASH
    ensures ParseAssignmentPair(line)
         == Ok((Range(DigitValue(a), DigitValue(b)), Range(DigitValue(c), DigitValue(d))))
  {
    OneDigit(a);
    OneDigit(b);
    OneDigit(c);
    OneDigit(d);
    ShortPair(line, a, b, c, d);
    ParseOfParts(line, [a], [b], [c], [d], Range(DigitValue(a), DigitValue(b)), Range(DigitValue(c), DigitValue(d)));
  }

  /** The layout of a line `a-b,c-d` of four one-digit sections. */
  lemma ShortPair(line: seq<byte>, a: byte, b: byte, c: byte, d: byte)
    requires |line| == 7 && line[0] == a && line[2] == b && line[4] == c && line[6] == d
    requires line[1] == DASH && line[3] == COMMA && line[5] == DASH
    ensures line == ([a] + [DASH] + [b]) + [COMMA] + ([c] + [DASH] + [d])
  {
  }

  lemma OneDigit(a: byte)
    requires IsDigit(a)
    ensures Section([a]) && DecimalValue([a]) == DigitValue(a)
  {
    assert [a][..0] == [];
  }

  /** The layout of the multi-digit line `a-bb,c-d`. */
  lemma WidePair(line: seq<byte>, a: byte, b1: byte, b2: byte, c: byte, d: byte)
    requires |line| == 8 && line[0] == a && line[2] == b1 && line[3] == b2 && line[5] == c && line[7] == d
    requires line[1] == DASH && line[4] == COMMA && line[6] == DASH
    ensures line == ([a] + [DASH] + [b1, b2]) + [COMMA] + ([c] + [DASH] + [d])
  {
  }

  lemma TwoDigits(a: byte, b: byte)
    requires IsDigit(a) && IsDigit(b)
    ensures Section([a, b]) && DecimalValue([a, b]) == DigitValue(a) * 10 + DigitValue(b)
  {
    assert [a, b][..1] == [a];
    OneDigit(a);
  }

  lemma WidePairParses(line: seq<byte>, a: byte, b1: byte, b2: byte, c: byte, d: byte)
    requires IsDigit(a) && IsDigit(b1) && IsDigit(b2) && IsDigit(c) && IsDigit(d)
    requires |line| == 8 && line[0] == a && line[2] == b1 && line[3] == b2 && line[5] == c && line[7] == d
    requires line[1] == DASH && line[4] == COMMA && line[6] == DASH
    ensures ParseAssignmentPair(line)
         == Ok((Range(DigitValue(a), DigitValue(b1) * 10 + DigitValue(b2)), Range(DigitValue(c), DigitValue(d))))
  {
    OneDigit(a);
    TwoDigits(b1, b2);
    OneDigit(c);
    OneDigit(d);
    WidePair(line, a, b1, b2, c, d);
    ParseOfParts(line, [a], [b1, b2], [c], [d],
                 Range(DigitValue(a), DigitValue(b1) * 10 + DigitValue(b2)), Range(DigitValue(c), DigitValue(d)));
  }

  lemma Pair1Parses()
    ensures ParseAssignmentPair(Pair1) == Ok((Range(2, 4), Range(6, 8)))
  {
    ShortPairParses(Pair1, '2', '4', '6', '8');
  }

  lemma Pair2Parses()
    ensures ParseAssignmentPair(Pair2) == Ok((Range(2, 3), Range(4, 5)))
  {
    ShortPairParses(Pair2, '2', '3', '4', '5');
  }

  lemma Pair3Parses()
    ensures ParseAssignmentPair(Pair3) == Ok((Range(5, 7), Range(7, 9)))
  {
    ShortPairParses(Pair3, '5', '7', '7', '9');
  }

  lemma Pair4Parses()
    ensures ParseAssignmentPair(Pair4) == Ok((Range(2, 8), Range(3, 7)))
  {
    ShortPairParses(Pair4, '2', '8', '3', '7');
  }

  lemma Pair5Parses()
    ensures ParseAssignmentPair(Pair5) == Ok((Range(6, 6), Range(4, 6)))
  {
    ShortPairParses(Pair5, '6', '6', '4', '6');
  }

  lemma Pair6Parses()
    ensures ParseAssignmentPair(Pair6) == Ok((Range(2, 6), Range(4, 8)))
  {
    ShortPairParses(Pair6, '2', '6', '4', '8');
  }

  lemma Pair1WideParses()
    ensures ParseAssignmentPair(Pair1Wide) == Ok((Range(2, 40), Range(6, 8)))
  {
    Pair1WideLayout();
    WidePairParses(Pair1Wide, '2', '4', '0', '6', '8');
  }

  lemma Pair1WideLayout()
    ensures |Pair1Wide| == 8 && Pair1Wide[0] == '2' && Pair1Wide[2] == '4' && Pair1Wide[3] == '0'
    ensures Pair1Wide[5] == '6' && Pair1Wide[7] == '8'
    ensures Pair1Wide[1] == DASH && Pair1Wide[4] == COMMA && Pair1Wide[6] == DASH
  {
  }

  const Assignments: seq<seq<byte>> := [Pair1, Pair2, Pair3, Pair4, Pair5, Pair6]
  /** The example of the tests: the six lines, without a final newline. */
  const Example: seq<byte> := Join(Assignments, [NL])
  /** The multi-digit variant: the first line reads `2-40,6-8`. */
  const WideExample: seq<byte> := Join([Pair1Wide, Pair2, Pair3, Pair4, Pair5, Pair6], [NL])

  lemma LinesOfSix(l1: seq<byte>, l2: seq<byte>, l3: seq<byte>, l4: seq<byte>, l5: seq<byte>, l6: seq<byte>)
    requires PlainLine(l1) && PlainLine(l2) && PlainLine(l3) && PlainLine(l4) && PlainLine(l5) && PlainLine(l6)
    requires l6 != []
    ensures Lines(Join([l1, l2, l3, l4, l5, l6], [NL])) == [l1, l2, l3, l4, l5, l6]
  {
    LinesOfJoin([l1, l2, l3, l4, l5, l6]);
  }

  lemma CountOfSix(p1: (Range, Range), p2: (Range, Range), p3: (Range, Range),
                   p4: (Range, Range), p5: (Range, Range), p6: (Range, Range), test: (Range, Range) -> bool)
    ensures Count([p1, p2, p3, p4, p5, p6], test)
         == Indicator(p1, test) + Indicator(p2, test) + Indicator(p3, test)
          + Indicator(p4, test) + Indicator(p5, test) + Indicator(p6, test)
  {
    assert [p1][..0] == [];
    assert Count([p1], test) == Indicator(p1, test);
    assert [p1, p2][..1] == [p1];
    assert Count([p1, p2], test) == Count([p1], test) + Indicator(p2, test);
    assert [p1, p2, p3][..2] == [p1, p2];
    assert Count([p1, p2, p3], test) == Count([p1, p2], test) + Indicator(p3, test);
    assert [p1, p2, p3, p4][..3] == [p1, p2, p3];
    assert Count([p1, p2, p3, p4], test) == Count([p1, p2, p3], test) + Indicator(p4, test);
    assert [p1, p2, p3, p4, p5][..4] == [p1, p2, p3, p4];
    assert Count([p1, p2, p3, p4, p5], test) == Count([p1, p2, p3, p4], test) + Indicator(p5, test);
    assert [p1, p2, p3, p4, p5, p6][..5] == [p1, p2, p3, p4, p5];
  }

  /** Both parts of a six-line input whose lines parse. */
  lemma PartsOfSix(input: seq<byte>, l1: seq<byte>, l2: seq<byte>, l3: seq<byte>, l4: seq<byte>, l5: seq<byte>,
                   l6: seq<byte>, p1: (Range, Range), p2: (Range, Range), p3: (Range, Range),
                   p4: (Range, Range), p5: (Range, Range), p6: (Range, Range))
    requires Lines(input) == [l1, l2, l3, l4, l5, l6]
    requires ParseAssignmentPair(l1) == Ok(p1) && ParseAssignmentPair(l2) == Ok(p2)
    requires ParseAssignmentPair(l3) == Ok(p3) && ParseAssignmentPair(l4) == Ok(p4)
    requires ParseAssignmentPair(l5) == Ok(p5) && ParseAssignmentPair(l6) == Ok(p6)
    ensures Part1(input) == Ok(Count([p1, p2, p3, p4, p5, p6], FullyContains))
    ensures Part2(input) == Ok(Count([p1, p2, p3, p4, p5, p6], HasOverlap))
  {
    SixSteps(l1, l2, l3, l4, l5, l6, ParseAssignmentPair, p1, p2, p3, p4, p5, p6);
    Part1Counts(input);
    Part2Counts(input);
  }

  lemma ExampleLines()
    ensures Lines(Example) == Assignments
  {
    LinesOfSix(Pair1, Pair2, Pair3, Pair4, Pair5, Pair6);
  }

  lemma WideExampleLines()
    ensures Lines(WideExample) == [Pair1Wide, Pair2, Pair3, Pair4, Pair5, Pair6]
  {
    LinesOfSix(Pair1Wide, Pair2, Pair3, Pair4, Pair5, Pair6);
  }

  /** The example: two pairs contain one another, four overlap. */
  lemma ExampleCounts()
    ensures Part1(Example) == Ok(2)
    ensures Part2(Example) == Ok(4)
  {
    ExampleLines();
    Pair1Parses();
    Pair2Parses();
    Pair3Parses();
    Pair4Parses();
    Pair5Parses();
    Pair6Parses();
    var p1, p2, p3 := (Range(2, 4), Range(6, 8)), (Range(2, 3), Range(4, 5)), (Range(5, 7), Range(7, 9));
    var p4, p5, p6 := (Range(2, 8), Range(3, 7)), (Range(6, 6), Range(4, 6)), (Range(2, 6), Range(4, 8));
    PartsOfSix(Example, Pair1, Pair2, Pair3, Pair4, Pair5, Pair6, p1, p2, p3, p4, p5, p6);
    CountOfSix(p1, p2, p3, p4, p5, p6, FullyContains);
    CountOfSix(p1, p2, p3, p4, p5, p6, HasOverlap);
  }

  /** The multi-digit variant: `2-40` contains `6-8`, so three pairs
      contain one another. */
  lemma WideExampleCounts()
    ensures Part1(WideExample) == Ok(3)
  {
    WideExampleLines();
    Pair1WideParses();
    Pair2Parses();
    Pair3Parses();
    Pair4Parses();
    Pair5Parses();
    Pair6Parses();
    var p1, p2, p3 := (Range(2, 40), Range(6, 8)), (Range(2, 3), Range(4, 5)), (Range(5, 7), Range(7, 9));
    var p4, p5, p6 := (Range(2, 8), Range(3, 7)), (Range(6, 6), Range(4, 6)), (Range(2, 6), Range(4, 8));
    PartsOfSix(WideExample, Pair1Wide, Pair2, Pair3, Pair4, Pair5, Pair6, p1, p2, p3, p4, p5, p6);
    CountOfSix(p1, p2, p3, p4, p5, p6, FullyContains);
  }

  /** A line whose first range is not well formed. */
  const Reversed: seq<byte> := "5-3,4-4"

  /** On `5-3,4-4` `part_1` exceeds `part_2`: the well-formedness that
      `Part1AtMostPart2` asks for cannot be dropped. */
  lemma ReversedRangeCounts()
    ensures Part1(Reversed) == Ok(1) && Part2(Reversed) == Ok(0)
  {
    ReversedParses();
    ReversedLines();
    PartsOfOne(Reversed, Reversed, (Range(5, 3), Range(4, 4)));
  }

  lemma ReversedParses()
    ensures ParseAssignmentPair(Reversed) == Ok((Range(5, 3), Range(4, 4)))
  {
    ShortPairParses(Reversed, '5', '3', '4', '4');
  }

  lemma ReversedLines()
    ensures Lines(Reversed) == [Reversed]
  {
    LinesLast(Reversed);
  }

  /** Both parts of a one-line input that parses. */
  lemma PartsOfOne(input: seq<byte>, line: seq<byte>, p: (Range, Range))
    requires Lines(input) == [line] && ParseAssignmentPair(line) == Ok(p)
    ensures Part1(input) == Ok(Indicator(p, FullyContains)) && Part2(input) == Ok(Indicator(p, HasOverlap))
  {
    MapAllOk([line], ParseAssignmentPair, [p]);
    assert Pairs(input) == Ok([p]);
    CountOfOne(p, FullyContains);
    CountOfOne(p, HasOverlap);
    Part1Counts(input);
    Part2Counts(input);
  }

  lemma CountOfOne(p: (Range, Range), test: (Range, Range) -> bool)
    ensures Count([p], test) == Indicator(p, test)
  {
    assert [p][..0] == [];
  }
}
