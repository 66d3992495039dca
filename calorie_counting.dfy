/** Day 1 (calorie counting): the input is a list of groups separated by a
    blank line, each group one number per line. `Part1` is the largest group
    total, `Part2` the sum of the three largest group totals. */
module CalorieCounting {
  import opened Text
  import opened Selection

  /** Largest `usize` of a 64-bit target. */
  const USIZE_MAX: nat := 0xFFFF_FFFF_FFFF_FFFF

  /** The separator between groups: an empty line. */
  const BLANK_LINE: seq<byte> := [NL, NL]

  /** A line that `parse::<usize>()` rejects (the `expect` panic). */
  datatype Error = NotAnInteger(line: seq<byte>)

  /** One line of a group as a number: its decimal digits, with nothing
      around them (the line is not trimmed), fitting in a `usize`. */
  function ParseCalories(line: seq<byte>): (r: Result<nat, Error>)
    ensures r.Ok? <==> 0 < |line| && AllDigits(line) && DecimalValue(line) <= USIZE_MAX
    ensures r.Ok? ==> r.value == DecimalValue(line)
    ensures r.Err? ==> r.error == NotAnInteger(line)
  {
    match ParseUnsigned(line, USIZE_MAX)
    case None => Err(NotAnInteger(line))
    case Some(v) => Ok(v)
  }

  /** The total of one group: the sum of its lines' numbers, or the first
      line that is not a number. A group without lines totals 0. */
  function GroupSum(group: seq<byte>): (r: Result<nat, Error>)
    ensures r.Ok? <==> forall i :: 0 <= i < |Lines(group)| ==> ParseCalories(Lines(group)[i]).Ok?
    ensures Lines(group) == [] ==> r == Ok(0)
  {
    match MapAll(Lines(group), ParseCalories)
    case Err(e) => Err(e)
    case Ok(vs) => Ok(Sum(vs))
  }

  /** A group whose lines all parse totals the decimal values of its
      lines, whatever its line endings. */
  lemma GroupSumValue(group: seq<byte>, ls: seq<seq<byte>>)
    requires ls == Lines(group)
    requires forall i :: 0 <= i < |ls| ==> 0 < |ls[i]| && AllDigits(ls[i]) && DecimalValue(ls[i]) <= USIZE_MAX
    ensures GroupSum(group) == Ok(Sum(seq(|ls|, i requires 0 <= i < |ls| => DecimalValue(ls[i]))))
  {
    var vs: seq<nat> := seq(|ls|, i requires 0 <= i < |ls| => DecimalValue(ls[i]));
    assert |vs| == |ls|;
    forall i | 0 <= i < |ls| ensures ParseCalories(ls[i]) == Ok(vs[i]) {
      assert vs[i] == DecimalValue(ls[i]);
    }
    MapAllOk<seq<byte>, nat, Error>(ls, ParseCalories, vs);
    assert MapAll(Lines(group), ParseCalories) == Ok(vs);
  }

  /** The group totals in input order, or the first line (in input order)
      that is not a number. */
  function GroupSums(input: seq<byte>): (r: Result<seq<nat>, Error>)
    ensures r.Ok? ==> |r.value| == |Split(input, BLANK_LINE)| && 0 < |r.value|
    ensures r.Ok? ==> forall i :: 0 <= i < |r.value| ==>
                        GroupSum(Split(input, BLANK_LINE)[i]) == Ok(r.value[i])
  {
    MapAll(Split(input, BLANK_LINE), GroupSum)
  }

  /** The totals succeed exactly when every group does. */
  lemma GroupSumsOk(input: seq<byte>, parts: seq<seq<byte>>)
    requires parts == Split(input, BLANK_LINE)
    ensures GroupSums(input).Ok? <==> forall i :: 0 <= i < |parts| ==> GroupSum(parts[i]).Ok?
  {
    MapAllOkIff(parts, GroupSum);
  }

  /** `part_1`: the largest group total. */
  function Part1(input: seq<byte>): (r: Result<nat, Error>)
    ensures r.Ok? <==> GroupSums(input).Ok?
    ensures r.Ok? ==> r.value in GroupSums(input).value
    ensures r.Ok? ==> forall i :: 0 <= i < |GroupSums(input).value| ==> GroupSums(input).value[i] <= r.value
  {
    match GroupSums(input)
    case Err(e) => Err(e)
    case Ok(sums) => Ok(Max(sums))
  }

  /** `part_2`: the sum of the three largest group totals (of all of them
      when there are fewer than three groups). */
  function Part2(input: seq<byte>): (r: Result<nat, Error>)
    ensures r.Ok? <==> GroupSums(input).Ok?
    ensures r.Ok? ==> r.value == Sum(Take(3, SortDesc(GroupSums(input).value)))
  {
    match GroupSums(input)
    case Err(e) => Err(e)
    case Ok(sums) =>
      KLargestIsSortedPrefix(3, sums);
      Ok(TopSum(3, sums))
  }

  /** Both parts fail on the same inputs, and `Part1 <= Part2 <= 3 * Part1`. */
  lemma Part1WithinPart2(input: seq<byte>)
    ensures Part1(input).Ok? <==> Part2(input).Ok?
    ensures Part1(input).Ok? ==> Part1(input).value <= Part2(input).value <= 3 * Part1(input).value
  {
    if GroupSums(input).Ok? {
      TopSumBounds(3, GroupSums(input).value);
    }
  }

  /** With three groups or fewer, `Part2` is the total of all groups. */
  lemma Part2OfFewGroups(input: seq<byte>)
    requires |Split(input, BLANK_LINE)| <= 3
    ensures Part2(input).Ok? ==> Part2(input).value == Sum(GroupSums(input).value)
  {
    if GroupSums(input).Ok? {
      TopSumOfFew(3, GroupSums(input).value);
    }
  }

  /** Removing the element at `j` removes one copy of it. */
  lemma RemoveAt<T>(s: seq<T>, j: nat)
    requires j < |s|
    ensures multiset(Without(s, j)) == multiset(s) - multiset{s[j]}
  {
    assert s == s[..j] + [s[j]] + s[j + 1..];
    assert multiset(s) == multiset(s[..j]) + multiset{s[j]} + multiset(s[j + 1..]);
  }

  /** Removing the same position from a sequence and from its images
      keeps the two in step. */
  lemma RemoveImage<A>(ys: seq<A>, ws: seq<nat>, j: nat, f: A -> Result<nat, Error>)
    requires j < |ys| && |ws| == |ys| && forall i :: 0 <= i < |ys| ==> f(ys[i]) == Ok(ws[i])
    ensures forall i :: 0 <= i < |ys| - 1 ==> f(Without(ys, j)[i]) == Ok(Without(ws, j)[i])
  {
    forall i | 0 <= i < |ys| - 1 ensures f(Without(ys, j)[i]) == Ok(Without(ws, j)[i]) {
      if i < j {
        assert Without(ys, j)[i] == ys[i] && Without(ws, j)[i] == ws[i];
      } else {
        assert Without(ys, j)[i] == ys[i + 1] && Without(ws, j)[i] == ws[i + 1];
      }
    }
  }

  /** `s` without its element at `j`. */
  function Without<T>(s: seq<T>, j: nat): (r: seq<T>)
    requires j < |s|
    ensures |r| == |s| - 1
  {
    s[..j] + s[j + 1..]
  }

  /** Images under a fallible map of two permutations of each other are
      permutations of each other. */
  lemma {:induction false} PermutedImages<A>(xs: seq<A>, ys: seq<A>, vs: seq<nat>, ws: seq<nat>,
                                              f: A -> Result<nat, Error>)
    requires multiset(xs) == multiset(ys)
    requires |vs| == |xs| && forall i :: 0 <= i < |xs| ==> f(xs[i]) == Ok(vs[i])
    requires |ws| == |ys| && forall i :: 0 <= i < |ys| ==> f(ys[i]) == Ok(ws[i])
    ensures multiset(vs) == multiset(ws)
    decreases |xs|
  {
    assert |xs| == |multiset(xs)| == |ys|;
    if xs != [] {
      var n := |xs| - 1;
      assert xs[n] in multiset(ys) by { assert xs[n] in multiset(xs); }
      var j :| 0 <= j < |ys| && ys[j] == xs[n];
      var ys' := Without(ys, j);
      var ws' := Without(ws, j);
      assert multiset(xs[..n]) == multiset(ys') by {
        RemoveAt(xs, n);
        RemoveAt(ys, j);
        assert Without(xs, n) == xs[..n];
      }
      assert vs[n] == ws[j] by {
        assert f(xs[n]) == Ok(vs[n]) && f(ys[j]) == Ok(ws[j]);
      }
      RemoveImage(ys, ws, j, f);
      PermutedImages(xs[..n], ys', vs[..n], ws', f);
      MultisetOfSplit(vs, n);
      MultisetOfSplit(ws, j);
    }
  }

  lemma MultisetOfSplit<T>(s: seq<T>, j: nat)
    requires j < |s|
    ensures multiset(s) == multiset(Without(s, j)) + multiset{s[j]}
  {
    assert s == s[..j] + [s[j]] + s[j + 1..];
  }

  /** The answers do not depend on the order of the groups: two inputs whose
      groups are the same up to reordering give the same answers. */
  lemma GroupOrderIrrelevant(a: seq<byte>, b: seq<byte>)
    requires multiset(Split(a, BLANK_LINE)) == multiset(Split(b, BLANK_LINE))
    requires GroupSums(a).Ok? && GroupSums(b).Ok?
    ensures Part1(a) == Part1(b) && Part2(a) == Part2(b)
  {
    var sa, sb := GroupSums(a).value, GroupSums(b).value;
    PermutedImages(Split(a, BLANK_LINE), Split(b, BLANK_LINE), sa, sb, GroupSum);
    MaxReorder(sa, sb);
    TopSumReorder(3, sa, sb);
  }

  // ---------------------------------------------------------------------
  // The example of the puzzle

  /** `a` holds no blank line, and neither starts nor ends with a newline. */
  predicate NoBlankLine(a: seq<byte>)
  {
    && (forall i :: 0 <= i < |a| ==> !OccursAt(a, BLANK_LINE, i))
    && (a == [] || (a[0] != NL && a[|a| - 1] != NL))
  }

  lemma SplitBlankCons(a: seq<byte>, rest: seq<byte>)
    requires NoBlankLine(a)
    ensures Split(a + BLANK_LINE + rest, BLANK_LINE) == [a] + Split(rest, BLANK_LINE)
  {
    var s := a + BLANK_LINE + rest;
    forall i | 0 <= i < |a| ensures !OccursAt(s, BLANK_LINE, i) {
      if i < |a| - 1 {
        assert s[i..i + 2] == a[i..i + 2];
        assert !OccursAt(a, BLANK_LINE, i);
      } else {
        assert s[i..i + 2][0] == s[i] == a[i];
      }
    }
    assert OccursAt(s, BLANK_LINE, |a|) by {
      assert s[|a|..|a| + 2] == BLANK_LINE;
    }
    assert FindFrom(s, BLANK_LINE, 0) == |a|;
    assert s[..|a|] == a;
    assert s[|a| + 2..] == rest;
  }

  lemma SplitBlankLast(a: seq<byte>)
    requires NoBlankLine(a)
    ensures Split(a, BLANK_LINE) == [a]
  {
    assert FindFrom(a, BLANK_LINE, 0) == |a|;
  }

  /** A line without a newline, a newline and a text that starts with no
      newline holds no blank line. */
  lemma NoBlankLineCons(x: seq<byte>, rest: seq<byte>)
    requires x != [] && NL !in x && NoBlankLine(rest) && rest != []
    ensures NoBlankLine(x + [NL] + rest)
  {
    var s := x + [NL] + rest;
    forall i | 0 <= i < |s| ensures !OccursAt(s, BLANK_LINE, i) {
      if i + 2 <= |s| {
        if i < |x| {
          assert s[i..i + 2][0] == s[i] == x[i];
        } else if i == |x| {
          assert s[i..i + 2][1] == s[i + 1] == rest[0];
        } else {
          assert s[i..i + 2] == rest[i - |x| - 1..i - |x| + 1];
          assert !OccursAt(rest, BLANK_LINE, i - |x| - 1);
        }
      }
    }
  }

  /** A line that parses holds digits only, so no line break. */
  lemma NumberHasNoBreak(x: seq<byte>)
    requires ParseCalories(x).Ok?
    ensures x != [] && PlainLine(x) && x[0] != NL
  {
    assert IsDigit(x[0]) && IsDigit(x[|x| - 1]);
    forall i | 0 <= i < |x| ensures x[i] != NL {
      assert IsDigit(x[i]);
    }
  }

  /** Lines that parse, joined with newlines, hold no blank line. */
  lemma {:induction false} NoBlankLineJoin(ls: seq<seq<byte>>)
    requires ls != [] && forall k :: 0 <= k < |ls| ==> ParseCalories(ls[k]).Ok?
    ensures NoBlankLine(Join(ls, [NL]))
    decreases |ls|
  {
    var g := Join(ls, [NL]);
    NumberHasNoBreak(ls[0]);
    if |ls| == 1 {
      forall i | 0 <= i < |g| ensures !OccursAt(g, BLANK_LINE, i) {
        if i + 2 <= |g| {
          assert g[i..i + 2][0] == g[i];
        }
      }
      NumberHasNoBreak(ls[|ls| - 1]);
    } else {
      NoBlankLineJoin(ls[1..]);
      NoBlankLineCons(ls[0], Join(ls[1..], [NL]));
    }
  }

  /** A group whose lines all parse totals the sum of their numbers. */
  lemma GroupOfNumbers(ls: seq<seq<byte>>, vs: seq<nat>)
    requires ls != [] && |ls| == |vs| && forall i :: 0 <= i < |ls| ==> ParseCalories(ls[i]) == Ok(vs[i])
    ensures NoBlankLine(Join(ls, [NL])) && GroupSum(Join(ls, [NL])) == Ok(Sum(vs))
  {
    forall k | 0 <= k < |ls| ensures PlainLine(ls[k]) && ls[k] != [] {
      NumberHasNoBreak(ls[k]);
    }
    LinesOfJoin(ls);
    NoBlankLineJoin(ls);
    var r := MapAll(ls, ParseCalories);
    assert r.Ok? && r.value == vs;
    assert r == Ok(vs);
  }

  /** `Split` undoes joining groups with blank lines, when no group holds a
      blank line or starts or ends with a newline. */
  lemma {:induction false} SplitOfJoin(gs: seq<seq<byte>>)
    requires gs != [] && forall k :: 0 <= k < |gs| ==> NoBlankLine(gs[k])
    ensures Split(Join(gs, BLANK_LINE), BLANK_LINE) == gs
    decreases |gs|
  {
    if |gs| == 1 {
      SplitBlankLast(gs[0]);
    } else {
      SplitBlankCons(gs[0], Join(gs[1..], BLANK_LINE));
      SplitOfJoin(gs[1..]);
    }
  }

  /** The example of the puzzle, group by group: `1000 2000 3000`, `4000`,
      `5000 6000`, `7000 8000 9000` and `10000`, one number per line. */
  const Group1: seq<byte> := Join(["1000", "2000", "3000"], [NL])
  const Group2: seq<byte> := Join(["4000"], [NL])
  const Group3: seq<byte> := Join(["5000", "6000"], [NL])
  const Group4: seq<byte> := Join(["7000", "8000", "9000"], [NL])
  const Group5: seq<byte> := Join(["10000"], [NL])

  /** The example input: the five groups separated by blank lines. */
  const Example: seq<byte> := Join([Group1, Group2, Group3, Group4, Group5], BLANK_LINE)

  lemma Group1Total()
    ensures NoBlankLine(Group1) && GroupSum(Group1) == Ok(6000)
  {
    assert ParseCalories("1000") == Ok(1000);
    assert ParseCalories("2000") == Ok(2000);
    assert ParseCalories("3000") == Ok(3000);
    GroupOfNumbers(["1000", "2000", "3000"], [1000, 2000, 3000]);
    SumOfThree(1000, 2000, 3000);
  }

  lemma Group2Total()
    ensures NoBlankLine(Group2) && GroupSum(Group2) == Ok(4000)
  {
    assert ParseCalories("4000") == Ok(4000);
    GroupOfNumbers(["4000"], [4000]);
    SumOfThree(0, 0, 4000);
  }

  lemma Group3Total()
    ensures NoBlankLine(Group3) && GroupSum(Group3) == Ok(11000)
  {
    assert ParseCalories("5000") == Ok(5000);
    assert ParseCalories("6000") == Ok(6000);
    GroupOfNumbers(["5000", "6000"], [5000, 6000]);
    assert [5000, 6000][..1] == [5000];
  }

  lemma Group4Total()
    ensures NoBlankLine(Group4) && GroupSum(Group4) == Ok(24000)
  {
    assert ParseCalories("7000") == Ok(7000);
    assert ParseCalories("8000") == Ok(8000);
    assert ParseCalories("9000") == Ok(9000);
    GroupOfNumbers(["7000", "8000", "9000"], [7000, 8000, 9000]);
    SumOfThree(7000, 8000, 9000);
  }

  lemma Group5Total()
    ensures NoBlankLine(Group5) && GroupSum(Group5) == Ok(10000)
  {
    assert ParseCalories("10000") == Ok(10000);
    GroupOfNumbers(["10000"], [10000]);
  }

  /** Groups that hold no blank line, joined with blank lines, give back
      their totals in order. */
  lemma TotalsOfJoin(gs: seq<seq<byte>>, vs: seq<nat>)
    requires gs != [] && |gs| == |vs|
    requires forall k :: 0 <= k < |gs| ==> NoBlankLine(gs[k]) && GroupSum(gs[k]) == Ok(vs[k])
    ensures GroupSums(Join(gs, BLANK_LINE)) == Ok(vs)
  {
    SplitOfJoin(gs);
    MapAllOk(gs, GroupSum, vs);
  }

  lemma TotalsOfFive(g1: seq<byte>, g2: seq<byte>, g3: seq<byte>, g4: seq<byte>, g5: seq<byte>)
    requires NoBlankLine(g1) && GroupSum(g1) == Ok(6000)
    requires NoBlankLine(g2) && GroupSum(g2) == Ok(4000)
    requires NoBlankLine(g3) && GroupSum(g3) == Ok(11000)
    requires NoBlankLine(g4) && GroupSum(g4) == Ok(24000)
    requires NoBlankLine(g5) && GroupSum(g5) == Ok(10000)
    ensures GroupSums(Join([g1, g2, g3, g4, g5], BLANK_LINE)) == Ok([6000, 4000, 11000, 24000, 10000])
  {
    TotalsOfJoin([g1, g2, g3, g4, g5], [6000, 4000, 11000, 24000, 10000]);
  }

  /** The example groups total 6000, 4000, 11000, 24000 and 10000. */
  lemma ExampleGroupSums()
    ensures GroupSums(Example) == Ok([6000, 4000, 11000, 24000, 10000])
  {
    Group1Total();
    Group2Total();
    Group3Total();
    Group4Total();
    Group5Total();
    TotalsOfFive(Group1, Group2, Group3, Group4, Group5);
  }

  /** The largest group total of the example is 24000. */
  lemma ExampleMax(sums: seq<nat>)
    requires sums == [6000, 4000, 11000, 24000, 10000]
    ensures Max(sums) == 24000
  {
    var m := Max(sums);
    assert sums[3] <= m;
    var i :| 0 <= i < |sums| && sums[i] == m;
  }

  /** The group totals of the example in descending order. */
  lemma ExampleSorted(sums: seq<nat>)
    requires sums == [6000, 4000, 11000, 24000, 10000]
    ensures SortDesc(sums) == [24000, 11000, 10000, 6000, 4000]
  {
    var sorted: seq<nat> := [24000, 11000, 10000, 6000, 4000];
    assert SortedDesc(sorted);
    assert multiset(sorted) == multiset(sums);
    SortDescCorrect(sums);
    SortedDescUnique(SortDesc(sums), sorted);
  }

  /** The three largest group totals of the example are 24000, 11000 and
      10000. */
  lemma ExampleTop(sums: seq<nat>)
    requires sums == [6000, 4000, 11000, 24000, 10000]
    ensures TopSum(3, sums) == 45000
  {
    ExampleSorted(sums);
    KLargestIsSortedPrefix(3, sums);
    var top := KLargest(3, sums);
    assert top == [24000, 11000, 10000];
    SumOfThree(24000, 11000, 10000);
  }

  /** The example of the puzzle: 24000 and 24000 + 11000 + 10000. */
  lemma ExampleAnswers()
    ensures Part1(Example) == Ok(24000)
    ensures Part2(Example) == Ok(45000)
  {
    ExampleGroupSums();
    ExampleMax(GroupSums(Example).value);
    ExampleTop(GroupSums(Example).value);
  }

  /** Three newlines in a row: the blank line is the first two, so the next
      group starts with an empty line, which is not a number, and both
      parts fail. */
  lemma ExtraNewlineFails()
    ensures Part1(['1', NL, NL, NL, '2']).Err? && Part2(['1', NL, NL, NL, '2']).Err?
  {
    var s: seq<byte> := ['1', NL, NL, NL, '2'];
    assert s[0..2][0] != BLANK_LINE[0] && s[1..3] == BLANK_LINE;
    assert FindFrom(s, BLANK_LINE, 0) == 1;
    var second: seq<byte> := [NL, '2'];
    assert s[3..] == second;
    assert second[0..2][1] != BLANK_LINE[1];
    assert FindFrom(second, BLANK_LINE, 0) == 2;
    var parts := Split(s, BLANK_LINE);
    assert parts[1] == second;
    LinesCons([], ['2']);
    assert Lines(second)[0] == [];
    assert ParseCalories([]).Err?;
    assert GroupSum(second).Err?;
    GroupSumsOk(s, parts);
  }
}
