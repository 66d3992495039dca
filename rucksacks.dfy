/** Rucksack priorities. Each line of the input is a rucksack, each byte an
    item whose letter is its type. The first part adds up, line by line,
    the priorities of the item types found in both halves of the line; the
    second part takes the lines three at a time and adds up the priority of
    the one type (the badge) that all three lines carry.

    Both parts work imperatively on presence tables indexed by priority: two
    52-slot arrays cleared for every line in the first part, a 3 by 52 table
    cleared for every group in the second. Each method below is proved equal
    to a function on sets of priorities; the properties are proved about
    those functions. */
module Rucksacks {
  import opened Text

  /** `to_priority` panics on a byte that is not a letter; the badge search
      panics when a group has no item type in common. */
  datatype Error = InvalidItem(item: byte) | NoBadge

  /** The number of item types and slots in a presence table. */
  const TYPES: nat := 52

  predicate IsLower(b: byte)
  {
    'a' <= b <= 'z'
  }

  predicate IsUpper(b: byte)
  {
    'A' <= b <= 'Z'
  }

  predicate IsItem(b: byte)
  {
    IsLower(b) || IsUpper(b)
  }

  /** Every byte of `s` is a letter. */
  predicate Letters(s: seq<byte>)
  {
    forall b :: b in s ==> IsItem(b)
  }

  /** `c` is the one letter that occurs in both `a` and `b`. */
  predicate OnlyCommon(a: seq<byte>, b: seq<byte>, c: byte)
  {
    c in a && c in b && forall x :: x in a && x in b ==> x == c
  }

  /** The only letter common to two strings can be read off smaller
      strings that hold the same letters. */
  lemma OnlyCommonOfTypes(a: seq<byte>, b: seq<byte>, ta: seq<byte>, tb: seq<byte>, c: byte)
    requires c in a && c in b
    requires forall x :: x in a ==> x in ta
    requires forall x :: x in b ==> x in tb
    requires forall x :: x in ta && x in tb ==> x == c
    ensures OnlyCommon(a, b, c)
  {
  }

  // ---------------------------------------------------------------------
  // Priorities

  /** The priority of a letter: `a`..`z` are 1..26, `A`..`Z` are 27..52. */
  function Priority(b: byte): (p: nat)
    requires IsItem(b)
    ensures 1 <= p <= TYPES
    ensures IsLower(b) <==> p <= 26
  {
    if IsLower(b) then b as int - 'a' as int + 1 else b as int - 'A' as int + 27
  }

  /** `to_priority`: the priority of a letter, and a failure on any other
      byte. */
  function ToPriority(b: byte): (r: Result<nat, Error>)
    ensures r.Ok? <==> IsItem(b)
    ensures r.Ok? ==> 1 <= r.value <= TYPES && r.value == Priority(b)
    ensures r.Err? ==> r.error == InvalidItem(b)
  {
    if IsItem(b) then Ok(Priority(b)) else Err(InvalidItem(b))
  }

  /** The letter of a priority. */
  function ItemOf(p: nat): (b: byte)
    requires 1 <= p <= TYPES
    ensures IsItem(b)
  {
    if p <= 26 then ('a' as int + p - 1) as char else ('A' as int + p - 27) as char
  }

  /** Priorities and letters are in one-to-one correspondence. */
  lemma PriorityRoundTrip(b: byte, p: nat)
    ensures IsItem(b) ==> ItemOf(Priority(b)) == b
    ensures 1 <= p <= TYPES ==> Priority(ItemOf(p)) == p
  {
  }

  lemma PriorityInjective(a: byte, b: byte)
    requires IsItem(a) && IsItem(b) && Priority(a) == Priority(b)
    ensures a == b
  {
    PriorityRoundTrip(a, 0);
    PriorityRoundTrip(b, 0);
  }

  // ---------------------------------------------------------------------
  // Sets of item types

  /** The priorities of the letters in `s`. */
  function Types(s: seq<byte>): (t: set<nat>)
    ensures forall p :: p in t ==> 1 <= p <= TYPES
  {
    if s == [] then {}
    else
      var last := s[|s| - 1];
      var t := Types(s[..|s| - 1]);
      if IsItem(last) then t + {Priority(last)} else t
  }

  /** A priority is in `Types(s)` exactly when some letter of `s` has it. */
  lemma {:induction false} TypesMembers(s: seq<byte>)
    ensures forall i :: 0 <= i < |s| && IsItem(s[i]) ==> Priority(s[i]) in Types(s)
    ensures forall p :: p in Types(s) ==> exists i :: 0 <= i < |s| && IsItem(s[i]) && Priority(s[i]) == p
    decreases |s|
  {
    if s != [] {
      var init := s[..|s| - 1];
      TypesMembers(init);
      assert forall i :: 0 <= i < |init| ==> init[i] == s[i];
    }
  }

  /** The first byte of `s` that is not a letter, if any. */
  function FirstInvalid(s: seq<byte>): (r: Option<byte>)
    ensures r.None? <==> forall i :: 0 <= i < |s| ==> IsItem(s[i])
    ensures r.Some? ==> exists i :: 0 <= i < |s| && s[i] == r.value && !IsItem(s[i])
                          && forall j :: 0 <= j < i ==> IsItem(s[j])
  {
    if s == [] then None
    else if !IsItem(s[0]) then Some(s[0])
    else
      var r := FirstInvalid(s[1..]);
      assert forall i :: 0 < i < |s| ==> s[1..][i - 1] == s[i];
      r
  }

  /** The sum of the priorities in `t` that are between 1 and `n`. */
  function PrioritySum(t: set<nat>, n: nat): nat
  {
    if n == 0 then 0 else PrioritySum(t, n - 1) + (if n in t then n else 0)
  }

  /** The sum is zero exactly when no priority up to `n` is in the set. */
  lemma {:induction false} PrioritySumZero(t: set<nat>, n: nat)
    ensures PrioritySum(t, n) == 0 <==> forall p :: 1 <= p <= n ==> p !in t
  {
    if n > 0 {
      PrioritySumZero(t, n - 1);
    }
  }

  /** `PrioritySum` is a sum over the set: taking one member out takes its
      priority off the sum. */
  lemma {:induction false} PrioritySumRemove(t: set<nat>, p: nat, n: nat)
    requires p in t && 1 <= p <= n
    ensures PrioritySum(t, n) == p + PrioritySum(t - {p}, n)
  {
    if p < n {
      PrioritySumRemove(t, p, n - 1);
    } else {
      PrioritySumSame(t, t - {p}, n - 1);
    }
  }

  lemma {:induction false} PrioritySumSame(t: set<nat>, u: set<nat>, n: nat)
    requires forall p :: 1 <= p <= n ==> (p in t <==> p in u)
    ensures PrioritySum(t, n) == PrioritySum(u, n)
  {
    if n > 0 {
      PrioritySumSame(t, u, n - 1);
    }
  }

  /** Adding a new member adds its priority. */
  lemma PrioritySumAdd(t: set<nat>, p: nat, n: nat)
    requires p !in t && 1 <= p <= n
    ensures PrioritySum(t + {p}, n) == PrioritySum(t, n) + p
  {
    PrioritySumRemove(t + {p}, p, n);
    assert (t + {p}) - {p} == t;
  }

  /** A larger set has a larger sum. */
  lemma {:induction false} PrioritySumMonotone(t: set<nat>, u: set<nat>, n: nat)
    requires t <= u
    ensures PrioritySum(t, n) <= PrioritySum(u, n)
  {
    if n > 0 {
      PrioritySumMonotone(t, u, n - 1);
    }
  }

  // ---------------------------------------------------------------------
  // The first part: items in both compartments

  /** `split_at(len / 2)`: the two compartments; the second holds the extra
      byte of a line of odd length. */
  function Compartments(line: seq<byte>): (c: (seq<byte>, seq<byte>))
    ensures c.0 + c.1 == line
    ensures |c.0| == |line| / 2 && |c.1| - |c.0| <= 1
  {
    (line[..|line| / 2], line[|line| / 2..])
  }

  /** The item types found in both compartments. */
  function Shared(line: seq<byte>): (t: set<nat>)
    ensures t <= Types(Compartments(line).0) && t <= Types(Compartments(line).1)
  {
    var (first, second) := Compartments(line);
    Types(first) * Types(second)
  }

  /** The value of one line: the sum of the priorities of the shared types,
      each counted once, or the failure on the first byte that is not a
      letter. */
  function RucksackValue(line: seq<byte>): (r: Result<nat, Error>)
    ensures r.Ok? <==> forall i :: 0 <= i < |line| ==> IsItem(line[i])
    ensures r.Err? ==> exists i :: 0 <= i < |line| && r.error == InvalidItem(line[i]) && !IsItem(line[i])
                          && forall j :: 0 <= j < i ==> IsItem(line[j])
  {
    match FirstInvalid(line)
    case Some(b) => Err(InvalidItem(b))
    case None => Ok(PrioritySum(Shared(line), TYPES))
  }

  /** A line is worth nothing exactly when its compartments share no type. */
  lemma RucksackValueZero(line: seq<byte>)
    requires RucksackValue(line).Ok?
    ensures RucksackValue(line).value == 0 <==> Shared(line) == {}
  {
    PrioritySumZero(Shared(line), TYPES);
  }

  /** The case the puzzle describes: one shared type gives its priority,
      however often it repeats in either compartment. */
  lemma RucksackValueSingle(line: seq<byte>, p: nat)
    requires RucksackValue(line).Ok? && Shared(line) == {p}
    ensures RucksackValue(line).value == p
  {
    PrioritySumRemove({p}, p, TYPES);
    assert {p} - {p} == {};
    PrioritySumZero({}, TYPES);
  }

  /** A line is worth no more than the types of either compartment. */
  lemma RucksackValueBound(line: seq<byte>)
    requires RucksackValue(line).Ok?
    ensures RucksackValue(line).value <= PrioritySum(Types(Compartments(line).0), TYPES)
    ensures RucksackValue(line).value <= PrioritySum(Types(Compartments(line).1), TYPES)
  {
    PrioritySumMonotone(Shared(line), Types(Compartments(line).0), TYPES);
    PrioritySumMonotone(Shared(line), Types(Compartments(line).1), TYPES);
  }

  /** Two bytes of the same priority are the same letter, so a type shared
      by two pieces is a letter both contain. */
  lemma SharedTypeIsLetter(a: seq<byte>, b: seq<byte>, p: nat)
    requires p in Types(a) * Types(b)
    ensures exists i, k :: 0 <= i < |a| && 0 <= k < |b| && a[i] == b[k] && IsItem(a[i]) && Priority(a[i]) == p
  {
    TypesMembers(a);
    TypesMembers(b);
    var i :| 0 <= i < |a| && IsItem(a[i]) && Priority(a[i]) == p;
    var k :| 0 <= k < |b| && IsItem(b[k]) && Priority(b[k]) == p;
    PriorityInjective(a[i], b[k]);
  }

  /** Two strings of letters with exactly one letter `c` in common share
      exactly the type of `c`. */
  lemma OnlyCommonType(first: seq<byte>, second: seq<byte>, c: byte)
    requires Letters(first) && Letters(second) && OnlyCommon(first, second, c)
    ensures Types(first) * Types(second) == {Priority(c)}
  {
    TypesMembers(first);
    TypesMembers(second);
    assert IsItem(c);
    var i :| 0 <= i < |first| && first[i] == c;
    var k :| 0 <= k < |second| && second[k] == c;
    assert Priority(c) in Types(first) * Types(second);
    forall p | p in Types(first) * Types(second) ensures p == Priority(c) {
      SharedTypeIsLetter(first, second, p);
      var i, k :| 0 <= i < |first| && 0 <= k < |second| && first[i] == second[k]
        && IsItem(first[i]) && Priority(first[i]) == p;
      assert first[i] in first && first[i] in second;
    }
  }

  /** A line of letters whose compartments `first` and `second` have
      exactly one letter `c` in common is worth the priority of `c`. */
  lemma RucksackOfLetter(line: seq<byte>, first: seq<byte>, second: seq<byte>, c: byte)
    requires line == first + second && |first| == |second|
    requires Letters(first) && Letters(second) && OnlyCommon(first, second, c)
    ensures Shared(line) == {Priority(c)}
    ensures RucksackValue(line) == Ok(Priority(c))
  {
    assert Compartments(line) == (first, second);
    OnlyCommonType(first, second, c);
    forall j | 0 <= j < |line| ensures IsItem(line[j]) {
      if j < |first| {
        assert line[j] == first[j] && first[j] in first;
      } else {
        assert line[j] == second[j - |first|] && second[j - |first|] in second;
      }
    }
    RucksackValueSingle(line, Priority(c));
  }

  /** The total of the first part: each line's value on its own, added up,
      or the first line's failure. */
  function SharedTotal(input: seq<byte>): (r: Result<nat, Error>)
    ensures r.Ok? <==> forall i :: 0 <= i < |Lines(input)| ==> RucksackValue(Lines(input)[i]).Ok?
    ensures Lines(input) == [] ==> r == Ok(0)
  {
    match MapAll(Lines(input), RucksackValue)
    case Err(e) => Err(e)
    case Ok(values) => Ok(Sum(values))
  }

  /** Clears a presence array (`fill(false)`). */
  method Clear(seen: array<bool>)
    modifies seen
    ensures forall q :: 0 <= q < seen.Length ==> !seen[q]
  {
    for q := 0 to seen.Length
      invariant forall k :: 0 <= k < q ==> !seen[k]
    {
      seen[q] := false;
    }
  }

  /** The first failure in two pieces is the first in the first piece, or
      else the first in the second. */
  lemma {:induction false} FirstInvalidAppend(a: seq<byte>, b: seq<byte>)
    ensures FirstInvalid(a + b) == if FirstInvalid(a).Some? then FirstInvalid(a) else FirstInvalid(b)
    decreases |a|
  {
    if a != [] {
      assert (a + b)[1..] == a[1..] + b;
      FirstInvalidAppend(a[1..], b);
    } else {
      assert a + b == b;
    }
  }

  /** One more byte of a scan: its type is added to the types seen. */
  lemma TypesSnoc(s: seq<byte>, j: nat)
    requires j < |s| && IsItem(s[j])
    ensures Types(s[..j + 1]) == Types(s[..j]) + {Priority(s[j])}
  {
    assert s[..j + 1][..j] == s[..j];
  }

  /** The first closure of `part_1`: every letter of the first compartment
      marks its type in the cleared array `seen`. */
  method MarkTypes(items: seq<byte>, seen: array<bool>) returns (bad: Option<byte>)
    requires seen.Length == TYPES && forall q :: 0 <= q < TYPES ==> !seen[q]
    modifies seen
    ensures bad == FirstInvalid(items)
    ensures bad.None? ==> forall q :: 0 <= q < TYPES ==> (seen[q] <==> q + 1 in Types(items))
  {
    for j := 0 to |items|
      invariant forall q :: 0 <= q < TYPES ==> (seen[q] <==> q + 1 in Types(items[..j]))
      invariant FirstInvalid(items) == FirstInvalid(items[j..])
    {
      var p := ToPriority(items[j]);
      assert items[j..][1..] == items[j + 1..];
      if p.Err? {
        return Some(items[j]);
      }
      TypesSnoc(items, j);
      seen[p.value - 1] := true;
    }
    assert items[..|items|] == items;
    bad := None;
  }

  /** The second closure of `part_1`: every letter of the second
      compartment whose type is marked in `seen1` and not yet in `seen2` is
      marked in `seen2` and adds its priority, so each shared type counts
      once. */
  method CountShared(items: seq<byte>, seen1: array<bool>, seen2: array<bool>, ghost first: seq<byte>)
    returns (bad: Option<byte>, sum: nat)
    requires seen1.Length == TYPES && seen2.Length == TYPES && seen1 != seen2
    requires forall q :: 0 <= q < TYPES ==> (seen1[q] <==> q + 1 in Types(first))
    requires forall q :: 0 <= q < TYPES ==> !seen2[q]
    modifies seen2
    ensures bad == FirstInvalid(items)
    ensures bad.None? ==> sum == PrioritySum(Types(first) * Types(items), TYPES)
    ensures bad.None? ==> forall q :: 0 <= q < TYPES ==> (seen2[q] <==> q + 1 in Types(first) * Types(items))
  {
    sum := 0;
    PrioritySumZero(Types(first) * Types(items[..0]), TYPES);
    for j := 0 to |items|
      invariant forall q :: 0 <= q < TYPES ==> (seen2[q] <==> q + 1 in Types(first) * Types(items[..j]))
      invariant sum == PrioritySum(Types(first) * Types(items[..j]), TYPES)
      invariant FirstInvalid(items) == FirstInvalid(items[j..])
    {
      var p := ToPriority(items[j]);
      assert items[j..][1..] == items[j + 1..];
      if p.Err? {
        return Some(items[j]), 0;
      }
      TypesSnoc(items, j);
      sum := AddShared(items[j], seen1, seen2, first, items[..j], sum);
    }
    assert items[..|items|] == items;
    bad := None;
  }

  /** One item of the second compartment (the closure of the second
      `filter_map`): a type of the first compartment not yet counted is
      marked and its priority added. */
  method AddShared(b: byte, seen1: array<bool>, seen2: array<bool>, ghost first: seq<byte>,
                   ghost done: seq<byte>, sum: nat) returns (sum': nat)
    requires IsItem(b)
    requires seen1.Length == TYPES && seen2.Length == TYPES && seen1 != seen2
    requires forall q :: 0 <= q < TYPES ==> (seen1[q] <==> q + 1 in Types(first))
    requires forall q :: 0 <= q < TYPES ==> (seen2[q] <==> q + 1 in Types(first) * Types(done))
    requires sum == PrioritySum(Types(first) * Types(done), TYPES)
    modifies seen2
    ensures forall q :: 0 <= q < TYPES ==> (seen2[q] <==> q + 1 in Types(first) * (Types(done) + {Priority(b)}))
    ensures sum' == PrioritySum(Types(first) * (Types(done) + {Priority(b)}), TYPES)
  {
    var p := Priority(b);
    ghost var before := Types(first) * Types(done);
    ghost var after := Types(first) * (Types(done) + {p});
    assert after == if p in Types(first) then before + {p} else before;
    var q := p - 1;
    if seen1[q] && !seen2[q] {
      seen2[q] := true;
      PrioritySumAdd(before, p, TYPES);
      sum' := sum + p;
    } else {
      assert after == before;
      sum' := sum;
    }
  }

  /** One line of `part_1`: both arrays are cleared, then the two closures
      run on the two compartments. Whatever the arrays held before, the
      result is the line's value; afterwards `seen1` holds the first
      compartment's types and `seen2` the shared ones. */
  method CommonPriorities(line: seq<byte>, seen1: array<bool>, seen2: array<bool>) returns (r: Result<nat, Error>)
    requires seen1.Length == TYPES && seen2.Length == TYPES && seen1 != seen2
    modifies seen1, seen2
    ensures r == RucksackValue(line)
    ensures r.Ok? ==> forall q :: 0 <= q < TYPES ==>
      (seen1[q] <==> q + 1 in Types(Compartments(line).0)) && (seen2[q] <==> q + 1 in Shared(line))
  {
    Clear(seen1);
    Clear(seen2);
    var half := |line| / 2;
    var first, second := line[..half], line[half..];
    FirstInvalidAppend(first, second);
    assert first + second == line;
    var bad := MarkTypes(first, seen1);
    if bad.Some? {
      return Err(InvalidItem(bad.value));
    }
    var sum;
    bad, sum := CountShared(second, seen1, seen2, first);
    if bad.Some? {
      return Err(InvalidItem(bad.value));
    }
    r := Ok(sum);
  }

  /** `part_1`: the two arrays are allocated once and reused for every
      line. */
  method Part1(input: seq<byte>) returns (r: Result<nat, Error>)
    ensures r == SharedTotal(input)
  {
    var seen1 := new bool[TYPES];
    var seen2 := new bool[TYPES];
    var lines := Lines(input);
    var total := 0;
    ghost var values: seq<nat> := [];
    for i := 0 to |lines|
      invariant MapAll(lines[..i], RucksackValue) == Ok(values)
      invariant total == Sum(values)
    {
      var v := CommonPriorities(lines[i], seen1, seen2);
      MapAllStep(lines, RucksackValue, i, values);
      if v.Err? {
        return Err(v.error);
      }
      values := values + [v.value];
      total := total + v.value;
    }
    assert lines[..|lines|] == lines;
    r := Ok(total);
  }

  // ---------------------------------------------------------------------
  // The second part: the badge of a group of three

  /** The scan of the third line: the first letter whose type the first two
      lines share, or the failure on a byte that is not a letter met
      before it. Bytes after the badge are not looked at. */
  function BadgeScan(s: seq<byte>, common: set<nat>): (r: Result<nat, Error>)
    ensures r.Ok? ==> r.value in common && exists i :: 0 <= i < |s| && IsItem(s[i]) && Priority(s[i]) == r.value
    ensures r == Err(NoBadge) <==> forall i :: 0 <= i < |s| ==> IsItem(s[i]) && Priority(s[i]) !in common
    ensures r.Err? && r.error != NoBadge ==> exists i :: 0 <= i < |s| && r.error == InvalidItem(s[i]) && !IsItem(s[i])
  {
    if s == [] then Err(NoBadge)
    else if !IsItem(s[0]) then Err(InvalidItem(s[0]))
    else if Priority(s[0]) in common then Ok(Priority(s[0]))
    else
      var r := BadgeScan(s[1..], common);
      assert forall i :: 0 < i < |s| ==> s[1..][i - 1] == s[i];
      r
  }

  /** No byte before `i` stops the scan: each is a letter of a type that
      is not common. */
  predicate PassedOver(s: seq<byte>, i: nat, common: set<nat>)
    requires i <= |s|
  {
    forall j :: 0 <= j < i ==> IsItem(s[j]) && Priority(s[j]) !in common
  }

  lemma PassedOverCons(s: seq<byte>, k: nat, common: set<nat>)
    requires s != [] && IsItem(s[0]) && Priority(s[0]) !in common
    requires k < |s| - 1 && PassedOver(s[1..], k, common)
    ensures PassedOver(s, k + 1, common) && s[k + 1] == s[1..][k]
  {
    forall j | 0 <= j < k + 1 ensures IsItem(s[j]) && Priority(s[j]) !in common {
      if j > 0 { assert s[j] == s[1..][j - 1]; }
    }
  }

  /** The badge the scan returns is the first letter of a common type. */
  lemma {:induction false} BadgeScanFirstBadge(s: seq<byte>, common: set<nat>)
    requires BadgeScan(s, common).Ok?
    ensures exists i :: 0 <= i < |s| && IsItem(s[i]) && Priority(s[i]) == BadgeScan(s, common).value
                        && PassedOver(s, i, common)
    decreases |s|
  {
    if IsItem(s[0]) && Priority(s[0]) !in common {
      var t := s[1..];
      BadgeScanFirstBadge(t, common);
      var k :| 0 <= k < |t| && IsItem(t[k]) && Priority(t[k]) == BadgeScan(t, common).value && PassedOver(t, k, common);
      PassedOverCons(s, k, common);
    } else {
      assert PassedOver(s, 0, common);
    }
  }

  /** An invalid byte the scan reports is the first byte that is not a
      letter, and no badge comes before it. */
  lemma {:induction false} BadgeScanFirstInvalid(s: seq<byte>, common: set<nat>)
    requires BadgeScan(s, common).Err? && BadgeScan(s, common).error != NoBadge
    ensures exists i :: 0 <= i < |s| && !IsItem(s[i]) && BadgeScan(s, common).error == InvalidItem(s[i])
                        && PassedOver(s, i, common)
    decreases |s|
  {
    if IsItem(s[0]) && Priority(s[0]) !in common {
      var t := s[1..];
      BadgeScanFirstInvalid(t, common);
      var k :| 0 <= k < |t| && !IsItem(t[k]) && BadgeScan(t, common).error == InvalidItem(t[k]) && PassedOver(t, k, common);
      PassedOverCons(s, k, common);
    } else {
      assert PassedOver(s, 0, common);
    }
  }

  /** The scan returns at the badge: whatever follows it in the line is
      never looked at, invalid bytes included. */
  lemma {:induction false} BadgeScanStopsAtBadge(a: seq<byte>, b: seq<byte>, common: set<nat>)
    requires BadgeScan(a, common).Ok?
    ensures BadgeScan(a + b, common) == BadgeScan(a, common)
    decreases |a|
  {
    if IsItem(a[0]) && Priority(a[0]) !in common {
      assert (a + b)[1..] == a[1..] + b;
      BadgeScanStopsAtBadge(a[1..], b, common);
    }
  }

  /** The badge of a group: the first two lines are checked for bytes that
      are not letters, then the third is scanned for a type both share; a
      group of fewer than three lines has no badge. Chunks never have more
      than three lines. */
  function Badge(group: seq<seq<byte>>): (r: Result<nat, Error>)
    ensures r.Ok? ==> 3 <= |group| && r.value in Types(group[0]) * Types(group[1]) * Types(group[2])
    ensures 1 <= |group| && FirstInvalid(group[0]).Some? ==> r == Err(InvalidItem(FirstInvalid(group[0]).value))
    ensures 2 <= |group| && FirstInvalid(group[0]).None? && FirstInvalid(group[1]).Some? ==>
              r == Err(InvalidItem(FirstInvalid(group[1]).value))
    ensures 3 <= |group| && FirstInvalid(group[0]).None? && FirstInvalid(group[1]).None? ==>
              r == BadgeScan(group[2], Types(group[0]) * Types(group[1]))
    ensures |group| < 3 ==> r.Err?
    ensures |group| < 3 && (forall k :: 0 <= k < |group| ==> FirstInvalid(group[k]).None?) ==> r == Err(NoBadge)
  {
    if |group| == 0 then Err(NoBadge)
    else match FirstInvalid(group[0])
      case Some(b) => Err(InvalidItem(b))
      case None =>
        if |group| == 1 then Err(NoBadge)
        else match FirstInvalid(group[1])
          case Some(b) => Err(InvalidItem(b))
          case None =>
            if |group| == 2 then Err(NoBadge)
            else
              TypesMembers(group[2]);
              BadgeScan(group[2], Types(group[0]) * Types(group[1]))
  }

  predicate ValidGroup(group: seq<seq<byte>>)
  {
    |group| == 3 && forall k, i :: 0 <= k < 3 && 0 <= i < |group[k]| ==> IsItem(group[k][i])
  }

  /** In a group of three lines of letters, the search fails exactly when
      no type is common to all three. */
  lemma BadgeMissing(group: seq<seq<byte>>)
    requires ValidGroup(group)
    ensures Badge(group) == Err(NoBadge) <==> Types(group[0]) * Types(group[1]) * Types(group[2]) == {}
  {
    var common := Types(group[0]) * Types(group[1]);
    assert FirstInvalid(group[0]).None? && FirstInvalid(group[1]).None?;
    TypesMembers(group[2]);
    if Types(group[0]) * Types(group[1]) * Types(group[2]) != {} {
      var p :| p in common * Types(group[2]);
      var i :| 0 <= i < |group[2]| && IsItem(group[2][i]) && Priority(group[2][i]) == p;
    }
  }

  /** The case the puzzle describes: one type common to all three lines is
      the badge. */
  lemma BadgeUnique(group: seq<seq<byte>>, p: nat)
    requires ValidGroup(group)
    requires Types(group[0]) * Types(group[1]) * Types(group[2]) == {p}
    ensures Badge(group) == Ok(p)
  {
    BadgeMissing(group);
    assert FirstInvalid(group[0]).None? && FirstInvalid(group[1]).None?;
    var r := BadgeScan(group[2], Types(group[0]) * Types(group[1]));
    assert r.Ok?;
    assert r.value in Types(group[2]);
  }

  /** A group of three lines of letters with exactly one letter `c` in
      common has the priority of `c` as its badge; `pairs` holds the
      letters the first two lines share. */
  lemma BadgeOfLetter(group: seq<seq<byte>>, c: byte, pairs: seq<byte>)
    requires |group| == 3 && Letters(group[0]) && Letters(group[1]) && Letters(group[2])
    requires c in group[0] && c in group[1] && c in group[2]
    requires forall b :: b in group[0] && b in group[1] ==> b in pairs
    requires forall b :: b in pairs && b in group[2] ==> b == c
    ensures Badge(group) == Ok(Priority(c))
  {
    var all := Types(group[0]) * Types(group[1]) * Types(group[2]);
    TypesMembers(group[0]);
    TypesMembers(group[1]);
    TypesMembers(group[2]);
    assert IsItem(c);
    var i0 :| 0 <= i0 < |group[0]| && group[0][i0] == c;
    var i1 :| 0 <= i1 < |group[1]| && group[1][i1] == c;
    var i2 :| 0 <= i2 < |group[2]| && group[2][i2] == c;
    assert Priority(c) in all;
    forall p | p in all ensures p == Priority(c) {
      SharedTypeIsLetter(group[0], group[1], p);
      var i0, i1 :| 0 <= i0 < |group[0]| && 0 <= i1 < |group[1]| && group[0][i0] == group[1][i1]
        && IsItem(group[0][i0]) && Priority(group[0][i0]) == p;
      var d := group[0][i0];
      assert d in group[0] && d in group[1];
      var i :| 0 <= i < |group[2]| && IsItem(group[2][i]) && Priority(group[2][i]) == p;
      PriorityInjective(d, group[2][i]);
      assert d in pairs && group[2][i] in group[2];
    }
    assert all == {Priority(c)};
    forall k, i | 0 <= k < 3 && 0 <= i < |group[k]| ensures IsItem(group[k][i]) {
      assert group[k][i] in group[k];
      assert Letters(group[k]);
    }
    BadgeUnique(group, Priority(c));
  }

  /** The total of the second part: the badges of the groups of three, added
      up, or the first group's failure. */
  function BadgeTotal(input: seq<byte>): (r: Result<nat, Error>)
    ensures r.Ok? <==> forall k :: 0 <= k < |Chunks(Lines(input), 3)| ==> Badge(Chunks(Lines(input), 3)[k]).Ok?
    ensures Lines(input) == [] ==> r == Ok(0)
  {
    match MapAll(Chunks(Lines(input), 3), Badge)
    case Err(e) => Err(e)
    case Ok(badges) => Ok(Sum(badges))
  }

  /** A last group of one or two lines makes the second part fail. */
  lemma PartialGroupFails(input: seq<byte>)
    requires |Lines(input)| % 3 != 0
    ensures BadgeTotal(input).Err?
  {
    var groups := Chunks(Lines(input), 3);
    ChunksLength(Lines(input), 3);
    var last := groups[|groups| - 1];
    NotAMultipleOfThree(|Lines(input)|, |groups| - 1, |last|);
    assert Badge(last).Err?;
  }

  lemma NotAMultipleOfThree(m: nat, k: nat, r: nat)
    requires m == 3 * k + r && m % 3 != 0
    ensures r != 3
  {
  }

  /** Clears the presence table (`fill([false; 52])`). */
  method ClearTable(table: array2<bool>)
    modifies table
    ensures forall k, q :: 0 <= k < table.Length0 && 0 <= q < table.Length1 ==> !table[k, q]
  {
    for k := 0 to table.Length0
      invariant forall k', q :: 0 <= k' < k && 0 <= q < table.Length1 ==> !table[k', q]
    {
      for q := 0 to table.Length1
        invariant forall k', q' :: 0 <= k' < k && 0 <= q' < table.Length1 ==> !table[k', q']
        invariant forall q' :: 0 <= q' < q ==> !table[k, q']
      {
        table[k, q] := false;
      }
    }
  }

  /** With nothing to look for, the scan only checks for a byte that is not
      a letter. */
  lemma {:induction false} BadgeScanOfNothing(s: seq<byte>)
    ensures BadgeScan(s, {}) == if FirstInvalid(s).Some? then Err(InvalidItem(FirstInvalid(s).value)) else Err(NoBadge)
    decreases |s|
  {
    if s != [] && IsItem(s[0]) {
      BadgeScanOfNothing(s[1..]);
    }
  }

  /** The scan, resumed at position `j`, stops there on a byte that is not
      a letter or on a letter of a common type. */
  lemma ScanStopsAt(line: seq<byte>, j: nat, common: set<nat>)
    requires j < |line| && BadgeScan(line, common) == BadgeScan(line[j..], common)
    ensures !IsItem(line[j]) ==> BadgeScan(line, common) == Err(InvalidItem(line[j]))
    ensures IsItem(line[j]) && Priority(line[j]) in common ==> BadgeScan(line, common) == Ok(Priority(line[j]))
  {
    assert line[j..][0] == line[j];
  }

  /** The scan, resumed at position `j`, moves past a letter of a type
      that is not common. */
  lemma ScanPassesAt(line: seq<byte>, j: nat, common: set<nat>)
    requires j < |line| && BadgeScan(line, common) == BadgeScan(line[j..], common)
    requires IsItem(line[j]) && Priority(line[j]) !in common
    ensures BadgeScan(line, common) == BadgeScan(line[j + 1..], common)
  {
    assert line[j..][0] == line[j];
    assert line[j..][1..] == line[j + 1..];
  }

  /** The inner loop of `part_2` on line `i` of a group: every letter marks
      its type in row `i`, and the first one whose type is then marked in
      all three rows is returned as the badge. `common` is the set of types
      marked in both other rows, so the result is the scan of the line for
      `common`; `Err(NoBadge)` means that the loop ran to its end, and then
      row `i` holds the line's types. */
  method MarkRow(line: seq<byte>, i: nat, table: array2<bool>, ghost common: set<nat>) returns (r: Result<nat, Error>)
    requires i < 3 && table.Length0 == 3 && table.Length1 == TYPES
    requires forall q :: 0 <= q < TYPES ==> !table[i, q]
    requires forall q :: 0 <= q < TYPES ==>
      (q + 1 in common <==> (i == 0 || table[0, q]) && (i == 1 || table[1, q]) && (i == 2 || table[2, q]))
    modifies table
    ensures r == BadgeScan(line, common)
    ensures forall k, q :: 0 <= k < 3 && k != i && 0 <= q < TYPES ==> table[k, q] == old(table[k, q])
    ensures r == Err(NoBadge) ==> forall q :: 0 <= q < TYPES ==> (table[i, q] <==> q + 1 in Types(line))
  {
    for j := 0 to |line|
      invariant forall k, q :: 0 <= k < 3 && k != i && 0 <= q < TYPES ==> table[k, q] == old(table[k, q])
      invariant forall q :: 0 <= q < TYPES ==> (table[i, q] <==> q + 1 in Types(line[..j]))
      invariant BadgeScan(line, common) == BadgeScan(line[j..], common)
    {
      var p := ToPriority(line[j]);
      if p.Err? {
        ScanStopsAt(line, j, common);
        return p;
      }
      var q := p.value - 1;
      TypesSnoc(line, j);
      table[i, q] := true;
      if table[0, q] && table[1, q] && table[2, q] {
        assert p.value in common;
        ScanStopsAt(line, j, common);
        return p;
      }
      assert p.value !in common;
      ScanPassesAt(line, j, common);
    }
    assert line[..|line|] == line;
    r := Err(NoBadge);
  }

  /** One group of `part_2`: the table is cleared and the lines are marked
      in turn, row by row; no badge can show before the third row. */
  method FindBadge(group: seq<seq<byte>>, table: array2<bool>) returns (r: Result<nat, Error>)
    requires |group| <= 3 && table.Length0 == 3 && table.Length1 == TYPES
    modifies table
    ensures r == Badge(group)
  {
    ClearTable(table);
    for i := 0 to |group|
      invariant forall k, q :: 0 <= k < i && 0 <= q < TYPES ==> (table[k, q] <==> q + 1 in Types(group[k]))
      invariant forall k, q :: i <= k < 3 && 0 <= q < TYPES ==> !table[k, q]
      invariant forall k :: 0 <= k < i ==> FirstInvalid(group[k]).None?
      invariant i == 3 ==> BadgeScan(group[2], Types(group[0]) * Types(group[1])) == Err(NoBadge)
    {
      ghost var common := if i == 2 then Types(group[0]) * Types(group[1]) else {};
      BadgeScanOfNothing(group[i]);
      var found := MarkRow(group[i], i, table, common);
      if found != Err(NoBadge) {
        return found;
      }
    }
    r := Err(NoBadge);
  }

  /** `part_2`: the table is allocated once and reused for every group. */
  method Part2(input: seq<byte>) returns (r: Result<nat, Error>)
    ensures r == BadgeTotal(input)
  {
    var table := new bool[3, TYPES];
    var groups := Chunks(Lines(input), 3);
    var total := 0;
    ghost var badges: seq<nat> := [];
    for i := 0 to |groups|
      invariant MapAll(groups[..i], Badge) == Ok(badges)
      invariant total == Sum(badges)
    {
      var v := FindBadge(groups[i], table);
      MapAllStep(groups, Badge, i, badges);
      if v.Err? {
        return Err(v.error);
      }
      badges := badges + [v.value];
      total := total + v.value;
    }
    assert groups[..|groups|] == groups;
    r := Ok(total);
  }

  // ---------------------------------------------------------------------
  // The example of the puzzle

  const Sack1: seq<byte> := "vJrwpWtwJgWrhcsFMMfFFhFp"
  const Sack2: seq<byte> := "jqHRNqRjqzjGDLGLrsFMfFZSrLrFZsSL"
  const Sack3: seq<byte> := "PmmdzqPrVvPwwTWBwg"
  const Sack4: seq<byte> := "wMqvLMZHhHMvwLHjbvcjnnSBnvTQFn"
  const Sack5: seq<byte> := "ttgJtRGJQctTZtZT"
  const Sack6: seq<byte> := "CrZsJsPPZsGzwwsLwLmpwMDw"

  /** The six rucksacks share `p`, `L`, `P`, `v`, `t` and `s`. */
  lemma Sack1Halves()
    ensures Sack1 == "vJrwpWtwJgWr" + "hcsFMMfFFhFp"
    ensures Letters("vJrwpWtwJgWr") && Letters("hcsFMMfFFhFp") && Letters(Sack1)
  {
  }

  lemma Sack1Common()
    ensures OnlyCommon("vJrwpWtwJgWr", "hcsFMMfFFhFp", 'p')
  {
    Sack1Types();
    Sack1Meet();
    OnlyCommonOfTypes("vJrwpWtwJgWr", "hcsFMMfFFhFp", "vJrwpWtg", "hcsFMfp", 'p');
  }

  lemma Sack1Types()
    ensures forall x :: x in "vJrwpWtwJgWr" ==> x in "vJrwpWtg"
    ensures forall x :: x in "hcsFMMfFFhFp" ==> x in "hcsFMfp"
  {
  }

  lemma Sack1Meet()
    ensures forall x :: x in "vJrwpWtg" && x in "hcsFMfp" ==> x == 'p'
  {
  }

  lemma Sack1Value()
    ensures RucksackValue(Sack1) == Ok(16)
  {
    Sack1Halves();
    Sack1Common();
    RucksackOfLetter(Sack1, "vJrwpWtwJgWr", "hcsFMMfFFhFp", 'p');
  }

  lemma Sack2Halves()
    ensures Sack2 == "jqHRNqRjqzjGDLGL" + "rsFMfFZSrLrFZsSL"
    ensures Letters("jqHRNqRjqzjGDLGL") && Letters("rsFMfFZSrLrFZsSL") && Letters(Sack2)
  {
  }

  lemma Sack2Common()
    ensures OnlyCommon("jqHRNqRjqzjGDLGL", "rsFMfFZSrLrFZsSL", 'L')
  {
    Sack2Types();
    Sack2Meet();
    OnlyCommonOfTypes("jqHRNqRjqzjGDLGL", "rsFMfFZSrLrFZsSL", "jqHRNzGDL", "rsFMfZSL", 'L');
  }

  lemma Sack2Types()
    ensures forall x :: x in "jqHRNqRjqzjGDLGL" ==> x in "jqHRNzGDL"
    ensures forall x :: x in "rsFMfFZSrLrFZsSL" ==> x in "rsFMfZSL"
  {
  }

  lemma Sack2Meet()
    ensures forall x :: x in "jqHRNzGDL" && x in "rsFMfZSL" ==> x == 'L'
  {
  }

  lemma Sack2Value()
    ensures RucksackValue(Sack2) == Ok(38)
  {
    Sack2Halves();
    Sack2Common();
    RucksackOfLetter(Sack2, "jqHRNqRjqzjGDLGL", "rsFMfFZSrLrFZsSL", 'L');
  }

  lemma Sack3Halves()
    ensures Sack3 == "PmmdzqPrV" + "vPwwTWBwg"
    ensures Letters("PmmdzqPrV") && Letters("vPwwTWBwg") && Letters(Sack3)
  {
  }

  lemma Sack3Common()
    ensures OnlyCommon("PmmdzqPrV", "vPwwTWBwg", 'P')
  {
  }

  lemma Sack3Value()
    ensures RucksackValue(Sack3) == Ok(42)
  {
    Sack3Halves();
    Sack3Common();
    RucksackOfLetter(Sack3, "PmmdzqPrV", "vPwwTWBwg", 'P');
  }

  lemma Sack4Halves()
    ensures Sack4 == "wMqvLMZHhHMvwLH" + "jbvcjnnSBnvTQFn"
    ensures Letters("wMqvLMZHhHMvwLH") && Letters("jbvcjnnSBnvTQFn") && Letters(Sack4)
  {
  }

  lemma Sack4Common()
    ensures OnlyCommon("wMqvLMZHhHMvwLH", "jbvcjnnSBnvTQFn", 'v')
  {
    Sack4Types();
    Sack4Meet();
    OnlyCommonOfTypes("wMqvLMZHhHMvwLH", "jbvcjnnSBnvTQFn", "wMqvLZHh", "jbvcnSBTQF", 'v');
  }

  lemma Sack4Types()
    ensures forall x :: x in "wMqvLMZHhHMvwLH" ==> x in "wMqvLZHh"
    ensures forall x :: x in "jbvcjnnSBnvTQFn" ==> x in "jbvcnSBTQF"
  {
  }

  lemma Sack4Meet()
    ensures forall x :: x in "wMqvLZHh" && x in "jbvcnSBTQF" ==> x == 'v'
  {
  }

  lemma Sack4Value()
    ensures RucksackValue(Sack4) == Ok(22)
  {
    Sack4Halves();
    Sack4Common();
    RucksackOfLetter(Sack4, "wMqvLMZHhHMvwLH", "jbvcjnnSBnvTQFn", 'v');
  }

  lemma Sack5Halves()
    ensures Sack5 == "ttgJtRGJ" + "QctTZtZT"
    ensures Letters("ttgJtRGJ") && Letters("QctTZtZT") && Letters(Sack5)
  {
  }

  lemma Sack5Common()
    ensures OnlyCommon("ttgJtRGJ", "QctTZtZT", 't')
  {
  }

  lemma Sack5Value()
    ensures RucksackValue(Sack5) == Ok(20)
  {
    Sack5Halves();
    Sack5Common();
    RucksackOfLetter(Sack5, "ttgJtRGJ", "QctTZtZT", 't');
  }

  lemma Sack6Halves()
    ensures Sack6 == "CrZsJsPPZsGz" + "wwsLwLmpwMDw"
    ensures Letters("CrZsJsPPZsGz") && Letters("wwsLwLmpwMDw") && Letters(Sack6)
  {
  }

  lemma Sack6Common()
    ensures OnlyCommon("CrZsJsPPZsGz", "wwsLwLmpwMDw", 's')
  {
    Sack6Types();
    Sack6Meet();
    OnlyCommonOfTypes("CrZsJsPPZsGz", "wwsLwLmpwMDw", "CrZsJPGz", "wsLmpMD", 's');
  }

  lemma Sack6Types()
    ensures forall x :: x in "CrZsJsPPZsGz" ==> x in "CrZsJPGz"
    ensures forall x :: x in "wwsLwLmpwMDw" ==> x in "wsLmpMD"
  {
  }

  lemma Sack6Meet()
    ensures forall x :: x in "CrZsJPGz" && x in "wsLmpMD" ==> x == 's'
  {
  }

  lemma Sack6Value()
    ensures RucksackValue(Sack6) == Ok(19)
  {
    Sack6Halves();
    Sack6Common();
    RucksackOfLetter(Sack6, "CrZsJsPPZsGz", "wwsLwLmpwMDw", 's');
  }

  /** A line of letters is a line `str::lines` gives back unchanged. */
  lemma LettersArePlain(s: seq<byte>)
    requires Letters(s)
    ensures PlainLine(s)
  {
    assert NL !in s;
    if s != [] {
      assert s[|s| - 1] in s;
    }
  }

  const Sacks: seq<seq<byte>> := [Sack1, Sack2, Sack3, Sack4, Sack5, Sack6]

  /** The example input: the six rucksacks on six lines. */
  const Example: seq<byte> := Join(Sacks, [NL])

  lemma ExampleLines()
    ensures Lines(Example) == Sacks
    ensures forall k :: 0 <= k < 6 ==> Letters(Sacks[k])
  {
    Sack1Halves();
    Sack2Halves();
    Sack3Halves();
    Sack4Halves();
    Sack5Halves();
    Sack6Halves();
    forall k | 0 <= k < 6 ensures PlainLine(Sacks[k]) {
      LettersArePlain(Sacks[k]);
    }
    LinesOfJoin(Sacks);
  }

  lemma SumOfSix(a: nat, b: nat, c: nat, d: nat, e: nat, f: nat)
    ensures Sum([a, b, c, d, e, f]) == a + b + c + d + e + f
  {
    SumOfThree(a, b, c);
    SumOfThree(d, e, f);
    SumAppend([a, b, c], [d, e, f]);
    assert [a, b, c] + [d, e, f] == [a, b, c, d, e, f];
  }

  /** Six lines and their values give the sum of the values. */
  lemma SharedTotalOfSix(input: seq<byte>, l1: seq<byte>, l2: seq<byte>, l3: seq<byte>,
                         l4: seq<byte>, l5: seq<byte>, l6: seq<byte>,
                         v1: nat, v2: nat, v3: nat, v4: nat, v5: nat, v6: nat)
    requires Lines(input) == [l1, l2, l3, l4, l5, l6]
    requires RucksackValue(l1) == Ok(v1) && RucksackValue(l2) == Ok(v2) && RucksackValue(l3) == Ok(v3)
    requires RucksackValue(l4) == Ok(v4) && RucksackValue(l5) == Ok(v5) && RucksackValue(l6) == Ok(v6)
    ensures SharedTotal(input) == Ok(v1 + v2 + v3 + v4 + v5 + v6)
  {
    SixSteps(l1, l2, l3, l4, l5, l6, RucksackValue, v1, v2, v3, v4, v5, v6);
    SumOfSix(v1, v2, v3, v4, v5, v6);
  }

  /** The first part of the example: 16 + 38 + 42 + 22 + 20 + 19 = 157. */
  lemma ExampleShared()
    ensures SharedTotal(Example) == Ok(157)
  {
    ExampleLines();
    Sack1Value();
    Sack2Value();
    Sack3Value();
    Sack4Value();
    Sack5Value();
    Sack6Value();
    SharedTotalOfSix(Example, Sack1, Sack2, Sack3, Sack4, Sack5, Sack6, 16, 38, 42, 22, 20, 19);
  }

  /** The first group's badge is `r`. */
  lemma Group1Badge()
    requires forall k :: 0 <= k < 6 ==> Letters(Sacks[k])
    ensures Badge(Sacks[..3]) == Ok(18)
  {
    Group1Pairs();
    assert Sacks[..3] == [Sack1, Sack2, Sack3];
    BadgeOfLetter(Sacks[..3], 'r', "FMfrs");
  }

  lemma Group1Pairs()
    ensures forall b :: b in Sack1 && b in Sack2 ==> b in "FMfrs"
    ensures forall b :: b in "FMfrs" && b in Sack3 ==> b == 'r'
  {
    Sack1Halves();
    Group1PairsLeft();
    Group1PairsRight();
  }

  lemma Group1PairsLeft()
    ensures forall b :: b in "vJrwpWtwJgWr" && b in Sack2 ==> b in "FMfrs"
  {
  }

  lemma Group1PairsRight()
    ensures forall b :: b in "hcsFMMfFFhFp" && b in Sack2 ==> b in "FMfrs"
  {
  }

  /** The second group's badge is `Z`. */
  lemma Group2Badge()
    requires forall k :: 0 <= k < 6 ==> Letters(Sacks[k])
    ensures Badge(Sacks[3..]) == Ok(52)
  {
    Group2Pairs();
    assert Sacks[3..] == [Sack4, Sack5, Sack6];
    BadgeOfLetter(Sacks[3..], 'Z', "QTZc");
  }

  lemma Group2Pairs()
    ensures forall b :: b in Sack4 && b in Sack5 ==> b in "QTZc"
    ensures forall b :: b in "QTZc" && b in Sack6 ==> b == 'Z'
  {
  }

  /** Six lines in two groups and their badges give the sum of the
      badges. */
  lemma BadgeTotalOfSix(input: seq<byte>, ls: seq<seq<byte>>, v1: nat, v2: nat)
    requires Lines(input) == ls && |ls| == 6
    requires Badge(ls[..3]) == Ok(v1) && Badge(ls[3..]) == Ok(v2)
    ensures BadgeTotal(input) == Ok(v1 + v2)
  {
    var groups := Chunks(ls, 3);
    assert |ls[3..]| == 3 && Chunks(ls[3..], 3) == [ls[3..]];
    assert groups == [ls[..3]] + [ls[3..]];
    assert groups[0] == ls[..3] && groups[1] == ls[3..];
    MapAllOk(groups, Badge, [v1, v2]);
    assert Sum([v1, v2]) == Sum([v1]) + v2;
  }

  /** The second part of the example: 18 + 52 = 70. */
  lemma ExampleBadges()
    ensures BadgeTotal(Example) == Ok(70)
  {
    ExampleLines();
    Group1Badge();
    Group2Badge();
    BadgeTotalOfSix(Example, Sacks, 18, 52);
  }
}
