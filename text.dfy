/** The slice of Rust's standard string and iterator library that the four
    solvers rely on, stated over bytes: `str::lines`, `str::split` on a
    pattern, `str::split_once`, `str::trim`, `str::parse` for unsigned
    integers, `Iterator::sum`, collecting an iterator of fallible values
    (a panic in the closure ends the whole run at the first failing element)
    and `Itertools::chunks`. */
module Text {

  /** A byte of the input text, written as the character with that code
      (the inputs are ASCII text). */
  type byte = c: char | c as int < 256 witness '0'

  const NL: byte := '\n'
  const CR: byte := '\r'

  datatype Option<+T> = None | Some(value: T)

  /** `Err` stands for a panic (`expect`, `unwrap`, `unreachable!`, `panic!`)
      of the source: the run stops and reports that error. */
  datatype Result<+T, +E> = Ok(value: T) | Err(error: E)

  // ---------------------------------------------------------------------
  // Searching and splitting

  /** Index of the first `b` in `s`, or `|s|` when there is none. */
  function IndexOf(s: seq<byte>, b: byte): (i: nat)
    ensures i <= |s|
    ensures i < |s| ==> s[i] == b
    ensures forall j :: 0 <= j < i ==> s[j] != b
  {
    if s == [] then 0 else if s[0] == b then 0 else 1 + IndexOf(s[1..], b)
  }

  lemma {:induction false} IndexOfUnique(s: seq<byte>, b: byte, i: nat)
    requires i <= |s|
    requires i < |s| ==> s[i] == b
    requires forall j :: 0 <= j < i ==> s[j] != b
    ensures IndexOf(s, b) == i
  {
  }

  /** `str::split_once` with a one-byte separator: the text before and after
      the first occurrence of `sep`. */
  function SplitOnce(s: seq<byte>, sep: byte): (r: Option<(seq<byte>, seq<byte>)>)
    ensures r.None? <==> sep !in s
    ensures r.Some? ==> s == r.value.0 + [sep] + r.value.1 && sep !in r.value.0
  {
    var i := IndexOf(s, sep);
    if i == |s| then None else Some((s[..i], s[i + 1..]))
  }

  /** The decomposition `SplitOnce` finds is the only one that puts no
      separator into the first part. */
  lemma SplitOnceOf(a: seq<byte>, sep: byte, b: seq<byte>)
    requires sep !in a
    ensures SplitOnce(a + [sep] + b, sep) == Some((a, b))
  {
    var s := a + [sep] + b;
    IndexOfUnique(s, sep, |a|);
    assert s[..|a|] == a;
    assert s[|a| + 1..] == b;
  }

  /** `pat` occurs in `s` at position `i`. */
  predicate OccursAt(s: seq<byte>, pat: seq<byte>, i: nat)
  {
    i + |pat| <= |s| && s[i..i + |pat|] == pat
  }

  /** The first position at or after `i` where `pat` occurs, or `|s|`. */
  function FindFrom(s: seq<byte>, pat: seq<byte>, i: nat): (j: nat)
    requires 0 < |pat| && i <= |s|
    decreases |s| - i
    ensures i <= j <= |s|
    ensures j < |s| ==> OccursAt(s, pat, j)
    ensures forall k :: i <= k < j ==> !OccursAt(s, pat, k)
  {
    if i + |pat| > |s| then |s|
    else if s[i..i + |pat|] == pat then i
    else FindFrom(s, pat, i + 1)
  }

  /** The pieces joined back together with `sep` between them. */
  function Join(parts: seq<seq<byte>>, sep: seq<byte>): seq<byte>
  {
    if |parts| == 0 then []
    else if |parts| == 1 then parts[0]
    else parts[0] + sep + Join(parts[1..], sep)
  }

  /** `str::split` with a string pattern: the pieces between the leftmost,
      non-overlapping occurrences of `pat`. There is always at least one
      piece (the empty text gives one empty piece), joining them back gives
      the text, and no piece contains the pattern; `SplitLeftmost` adds that
      each separator is the first occurrence after the piece before it. */
  function Split(s: seq<byte>, pat: seq<byte>): (parts: seq<seq<byte>>)
    requires 0 < |pat|
    decreases |s|
    ensures 1 <= |parts| <= |s| + 1
    ensures Join(parts, pat) == s
    ensures forall k, i :: 0 <= k < |parts| && 0 <= i <= |parts[k]| ==> !OccursAt(parts[k], pat, i)
  {
    var j := FindFrom(s, pat, 0);
    if j == |s| then
      assert forall i :: 0 <= i < |s| ==> !OccursAt(s, pat, i);
      [s]
    else
      var rest := Split(s[j + |pat|..], pat);
      var head := s[..j];
      assert forall i :: 0 <= i <= |head| ==> !OccursAt(head, pat, i) by {
        forall i | 0 <= i <= |head| ensures !OccursAt(head, pat, i) {
          if OccursAt(head, pat, i) {
            assert head[i..i + |pat|] == s[i..i + |pat|];
            assert OccursAt(s, pat, i);
          }
        }
      }
      assert ([head] + rest)[1..] == rest;
      assert s == head + pat + s[j + |pat|..];
      [head] + rest
  }

  /** No occurrence of `pat` starts inside a piece and runs into the
      separator that follows it. */
  predicate Leftmost(parts: seq<seq<byte>>, pat: seq<byte>)
  {
    forall k, i :: 0 <= k < |parts| - 1 && 0 <= i < |parts[k]| ==> !OccursAt(parts[k] + pat, pat, i)
  }

  /** The separator after each piece is the leftmost occurrence of the
      pattern: none starts inside the piece and runs into the separator. So
      of overlapping occurrences, as in three newlines split on two, the
      first is the one that separates. */
  lemma {:induction false} SplitLeftmost(s: seq<byte>, pat: seq<byte>)
    requires 0 < |pat|
    ensures Leftmost(Split(s, pat), pat)
    decreases |s|
  {
    var j := FindFrom(s, pat, 0);
    if j < |s| {
      var rest := s[j + |pat|..];
      var tail := Split(rest, pat);
      SplitLeftmost(rest, pat);
      FirstPieceLeftmost(s, pat, j);
      var parts := Split(s, pat);
      assert parts == [s[..j]] + tail;
      forall k, i | 0 <= k < |parts| - 1 && 0 <= i < |parts[k]| ensures !OccursAt(parts[k] + pat, pat, i) {
        if k == 0 {
          assert parts[0] == s[..j];
        } else {
          assert parts[k] == tail[k - 1];
        }
      }
    }
  }

  /** The step of `SplitLeftmost` for the first piece: an occurrence that
      starts before the first match and runs into it would be an earlier
      match. */
  lemma FirstPieceLeftmost(s: seq<byte>, pat: seq<byte>, j: nat)
    requires 0 < |pat| && j < |s| && j == FindFrom(s, pat, 0)
    ensures forall i :: 0 <= i < j ==> !OccursAt(s[..j] + pat, pat, i)
  {
    var head := s[..j];
    assert head + pat == s[..j + |pat|];
    forall i | 0 <= i < j ensures !OccursAt(head + pat, pat, i) {
      if OccursAt(head + pat, pat, i) {
        assert (head + pat)[i..i + |pat|] == s[i..i + |pat|];
        assert OccursAt(s, pat, i);
      }
    }
  }

  /** Three newlines split on two: the separator is the first two, so the
      second piece keeps the last newline. */
  lemma ThreeNewlines()
    ensures Split([NL, NL, NL], [NL, NL]) == [[], [NL]]
  {
    var s: seq<byte> := [NL, NL, NL];
    assert OccursAt(s, [NL, NL], 0);
    assert FindFrom(s, [NL, NL], 0) == 0;
    assert s[2..] == [NL];
    assert !OccursAt([NL], [NL, NL], 0);
    assert FindFrom([NL], [NL, NL], 0) == 1;
  }

  // ---------------------------------------------------------------------
  // Lines

  /** A trailing carriage return removed, as `str::lines` does after a newline. */
  function StripCR(line: seq<byte>): seq<byte>
  {
    if 0 < |line| && line[|line| - 1] == CR then line[..|line| - 1] else line
  }

  /** `str::lines`: the text cut after every newline; each newline is
      dropped together with a carriage return right before it; a last line
      without a newline is kept as it is; there is no empty last line after
      a final newline. */
  function Lines(s: seq<byte>): (ls: seq<seq<byte>>)
    decreases |s|
    ensures |ls| <= |s|
    ensures forall k :: 0 <= k < |ls| ==> NL !in ls[k]
  {
    if s == [] then []
    else
      var i := IndexOf(s, NL);
      if i == |s| then [s]
      else [StripCR(s[..i])] + Lines(s[i + 1..])
  }

  /** A carriage return at the very end of the text, with no newline after
      it, stays in the last line. */
  lemma TrailingCRKept()
    ensures Lines(['a' as byte, CR]) == [['a' as byte, CR]]
  {
    assert IndexOf(['a' as byte, CR], NL) == 2;
  }

  lemma LinesCons(line: seq<byte>, rest: seq<byte>)
    requires NL !in line
    ensures Lines(line + [NL] + rest) == [StripCR(line)] + Lines(rest)
  {
    var s := line + [NL] + rest;
    IndexOfUnique(s, NL, |line|);
    assert s[..|line|] == line;
    assert s[|line| + 1..] == rest;
  }

  lemma LinesLast(line: seq<byte>)
    requires NL !in line && line != []
    ensures Lines(line) == [line]
  {
    IndexOfUnique(line, NL, |line|);
  }

  /** A line that `Lines` gives back unchanged: no newline in it and no
      carriage return at its end. */
  predicate PlainLine(line: seq<byte>)
  {
    NL !in line && (line == [] || line[|line| - 1] != CR)
  }

  /** `Lines` undoes joining lines with newlines, when the lines are plain
      and the last one is not empty. */
  lemma {:induction false} LinesOfJoin(ls: seq<seq<byte>>)
    requires ls != [] && ls[|ls| - 1] != []
    requires forall k :: 0 <= k < |ls| ==> PlainLine(ls[k])
    ensures Lines(Join(ls, [NL])) == ls
    decreases |ls|
  {
    if |ls| == 1 {
      LinesLast(ls[0]);
    } else {
      var rest := ls[1..];
      forall k | 0 <= k < |rest| ensures PlainLine(rest[k]) {
        assert rest[k] == ls[k + 1];
      }
      LinesOfJoin(rest);
      assert PlainLine(ls[0]);
      LinesCons(ls[0], Join(rest, [NL]));
      assert ls == [ls[0]] + rest;
    }
  }

  // ---------------------------------------------------------------------
  // Trimming

  /** The ASCII bytes with the Unicode White_Space property. */
  predicate IsWhitespace(b: byte)
  {
    b == ' ' || '\t' <= b <= '\r'
  }

  /** Index of the first byte of `s` that is not whitespace, or `|s|`. */
  function TrimStartIndex(s: seq<byte>): (i: nat)
    ensures i <= |s|
    ensures forall k :: 0 <= k < i ==> IsWhitespace(s[k])
    ensures i < |s| ==> !IsWhitespace(s[i])
  {
    if s == [] || !IsWhitespace(s[0]) then 0 else 1 + TrimStartIndex(s[1..])
  }

  /** One past the last byte of `s` that is not whitespace, or 0. */
  function TrimEndIndex(s: seq<byte>): (j: nat)
    decreases |s|
    ensures j <= |s|
    ensures forall k :: j <= k < |s| ==> IsWhitespace(s[k])
    ensures 0 < j ==> !IsWhitespace(s[j - 1])
  {
    if s == [] || !IsWhitespace(s[|s| - 1]) then |s| else TrimEndIndex(s[..|s| - 1])
  }

  /** `str::trim`: `s` without its leading and trailing whitespace. */
  function Trim(s: seq<byte>): (r: seq<byte>)
    ensures |r| <= |s|
    ensures r == [] || (!IsWhitespace(r[0]) && !IsWhitespace(r[|r| - 1]))
    ensures r == [] ==> forall k :: 0 <= k < |s| ==> IsWhitespace(s[k])
    ensures r != [] ==> TrimStartIndex(s) < TrimEndIndex(s) && r == s[TrimStartIndex(s)..TrimEndIndex(s)]
  {
    var i := TrimStartIndex(s);
    var j := TrimEndIndex(s);
    if j <= i then [] else s[i..j]
  }

  // ---------------------------------------------------------------------
  // Unsigned decimal numbers

  predicate IsDigit(b: byte)
  {
    '0' <= b <= '9'
  }

  predicate AllDigits(s: seq<byte>)
  {
    forall k :: 0 <= k < |s| ==> IsDigit(s[k])
  }

  function DigitValue(b: byte): nat
    requires IsDigit(b)
  {
    b as int - '0' as int
  }

  /** The number that a string of decimal digits denotes (positional value,
      most significant digit first). */
  function DecimalValue(s: seq<byte>): nat
    requires AllDigits(s)
  {
    if s == [] then 0 else DecimalValue(s[..|s| - 1]) * 10 + DigitValue(s[|s| - 1])
  }

  lemma {:induction false} DecimalValuePrefix(s: seq<byte>, i: nat)
    requires AllDigits(s) && i <= |s|
    ensures DecimalValue(s[..i]) <= DecimalValue(s)
    decreases |s|
  {
    if i < |s| {
      assert s[..|s| - 1][..i] == s[..i];
      DecimalValuePrefix(s[..|s| - 1], i);
    } else {
      assert s[..i] == s;
    }
  }

  /** The digit loop of `str::parse` for unsigned integers: the value of
      `s[..i]` is `acc`; every further digit multiplies by ten and adds, and
      the parse fails as soon as the value passes `max` or a non-digit
      comes. */
  function ParseDigitsFrom(s: seq<byte>, i: nat, acc: nat, max: nat): (r: Option<nat>)
    requires i <= |s| && AllDigits(s[..i]) && acc == DecimalValue(s[..i]) && acc <= max
    decreases |s| - i
    ensures r.Some? <==> AllDigits(s) && DecimalValue(s) <= max
    ensures r.Some? ==> r.value == DecimalValue(s)
  {
    if i == |s| then
      assert s[..i] == s;
      Some(acc)
    else if !IsDigit(s[i]) then
      None
    else
      var next := acc * 10 + DigitValue(s[i]);
      assert s[..i + 1][..i] == s[..i];
      assert AllDigits(s[..i + 1]);
      if next > max then
        assert AllDigits(s) ==> DecimalValue(s) > max by {
          if AllDigits(s) {
            DecimalValuePrefix(s, i + 1);
          }
        }
        None
      else
        ParseDigitsFrom(s, i + 1, next, max)
  }

  /** `str::parse` for an unsigned integer type whose largest value is
      `max`: a non-empty string of decimal digits whose value fits. */
  function ParseUnsigned(s: seq<byte>, max: nat): (r: Option<nat>)
    ensures r.Some? <==> 0 < |s| && AllDigits(s) && DecimalValue(s) <= max
    ensures r.Some? ==> r.value == DecimalValue(s)
  {
    if s == [] then None
    else
      assert s[..0] == [];
      ParseDigitsFrom(s, 0, 0, max)
  }

  function Digit(d: nat): (b: byte)
    requires d < 10
    ensures IsDigit(b) && DigitValue(b) == d
  {
    ('0' as int + d) as char
  }

  /** The decimal digits of `n`, without leading zeros. */
  function Decimal(n: nat): (s: seq<byte>)
    ensures 0 < |s| && AllDigits(s)
  {
    if n < 10 then [Digit(n)] else Decimal(n / 10) + [Digit(n % 10)]
  }

  lemma {:induction false} DecimalValueOfDecimal(n: nat)
    ensures DecimalValue(Decimal(n)) == n
  {
    if 10 <= n {
      var s := Decimal(n);
      assert s[..|s| - 1] == Decimal(n / 10);
      DecimalValueOfDecimal(n / 10);
    }
  }

  /** Parsing the decimal digits of a number that fits gives the number back. */
  lemma ParseDecimal(n: nat, max: nat)
    requires n <= max
    ensures ParseUnsigned(Decimal(n), max) == Some(n)
  {
    DecimalValueOfDecimal(n);
  }

  // ---------------------------------------------------------------------
  // Iterator adaptors

  /** Mapping a fallible step over a sequence, as a `map` whose closure
      panics: the values in order when every step succeeds, otherwise the
      error of the first step that fails. */
  function MapAll<A, B, E>(xs: seq<A>, f: A -> Result<B, E>): (r: Result<seq<B>, E>)
    decreases |xs|
    ensures r.Ok? <==> forall i :: 0 <= i < |xs| ==> f(xs[i]).Ok?
    ensures r.Ok? ==> |r.value| == |xs| && forall i :: 0 <= i < |xs| ==> f(xs[i]) == Ok(r.value[i])
    ensures r.Err? ==> exists i :: 0 <= i < |xs| && f(xs[i]) == Err(r.error) &&
                          forall j :: 0 <= j < i ==> f(xs[j]).Ok?
  {
    if xs == [] then Ok([])
    else
      var init := xs[..|xs| - 1];
      assert forall i :: 0 <= i < |init| ==> init[i] == xs[i];
      match MapAll(init, f)
      case Err(e) => Err(e)
      case Ok(vs) =>
        match f(xs[|xs| - 1])
        case Err(e) => Err(e)
        case Ok(v) => Ok(vs + [v])
  }

  /** A map that fails on a prefix fails on the whole sequence, with the
      same error: nothing after the first failure is looked at. */
  lemma {:induction false} MapAllPrefixErr<A, B, E>(xs: seq<A>, f: A -> Result<B, E>, i: nat)
    requires i <= |xs| && MapAll(xs[..i], f).Err?
    ensures MapAll(xs, f) == MapAll(xs[..i], f)
    decreases |xs|
  {
    if i < |xs| {
      var init := xs[..|xs| - 1];
      assert init[..i] == xs[..i];
      MapAllPrefixErr(init, f, i);
    } else {
      assert xs[..i] == xs;
    }
  }

  /** One more step of a map that has succeeded so far: its value is
      appended, or its failure is the failure of the whole map. */
  lemma MapAllStep<A, B, E>(xs: seq<A>, f: A -> Result<B, E>, i: nat, vs: seq<B>)
    requires i < |xs| && MapAll(xs[..i], f) == Ok(vs)
    ensures f(xs[i]).Ok? ==> MapAll(xs[..i + 1], f) == Ok(vs + [f(xs[i]).value])
    ensures f(xs[i]).Err? ==> MapAll(xs, f) == Err(f(xs[i]).error)
  {
    assert xs[..i + 1][..i] == xs[..i];
    if f(xs[i]).Err? {
      MapAllPrefixErr(xs, f, i + 1);
    }
  }

  /** The values of a map in which every step succeeds. */
  lemma MapAllOk<A, B, E>(xs: seq<A>, f: A -> Result<B, E>, vs: seq<B>)
    requires |xs| == |vs| && forall i :: 0 <= i < |xs| ==> f(xs[i]) == Ok(vs[i])
    ensures MapAll(xs, f) == Ok(vs)
  {
    var r := MapAll(xs, f);
    assert r.Ok? && r.value == vs;
    assert r == Ok(vs);
  }

  lemma MapAllOkIff<A, B, E>(xs: seq<A>, f: A -> Result<B, E>)
    ensures MapAll(xs, f).Ok? <==> forall i :: 0 <= i < |xs| ==> f(xs[i]).Ok?
  {
  }

  /** Six values mapped one by one. */
  lemma SixSteps<A, B, E>(x1: A, x2: A, x3: A, x4: A, x5: A, x6: A, f: A -> Result<B, E>,
                          v1: B, v2: B, v3: B, v4: B, v5: B, v6: B)
    requires f(x1) == Ok(v1) && f(x2) == Ok(v2) && f(x3) == Ok(v3)
    requires f(x4) == Ok(v4) && f(x5) == Ok(v5) && f(x6) == Ok(v6)
    ensures MapAll([x1, x2, x3, x4, x5, x6], f) == Ok([v1, v2, v3, v4, v5, v6])
  {
    MapAllOk([x1, x2, x3, x4, x5, x6], f, [v1, v2, v3, v4, v5, v6]);
  }

  /** Two fallible steps that succeed on the same elements and fail with the
      same errors make the map succeed on the same sequences and fail with
      the same error. */
  lemma {:induction false} MapAllSameErrors<A, B, C, E>(xs: seq<A>, f: A -> Result<B, E>, g: A -> Result<C, E>)
    requires forall x :: x in xs ==> (f(x).Ok? <==> g(x).Ok?)
    requires forall x :: x in xs && f(x).Err? ==> f(x).error == g(x).error
    ensures MapAll(xs, f).Ok? <==> MapAll(xs, g).Ok?
    ensures MapAll(xs, f).Err? ==> MapAll(xs, f).error == MapAll(xs, g).error
    decreases |xs|
  {
    if xs != [] {
      var init := xs[..|xs| - 1];
      assert forall x :: x in init ==> x in xs;
      MapAllSameErrors(init, f, g);
      assert xs[|xs| - 1] in xs;
    }
  }

  /** `Iterator::sum` over naturals (exact: no overflow). */
  function Sum(s: seq<nat>): (r: nat)
    ensures forall i :: 0 <= i < |s| ==> s[i] <= r
  {
    if s == [] then 0
    else
      var init := s[..|s| - 1];
      assert forall i :: 0 <= i < |init| ==> init[i] == s[i];
      Sum(init) + s[|s| - 1]
  }

  lemma {:induction false} SumCons(x: nat, s: seq<nat>)
    ensures Sum([x] + s) == x + Sum(s)
    decreases |s|
  {
    if s != [] {
      assert ([x] + s)[..|s|] == [x] + s[..|s| - 1];
      SumCons(x, s[..|s| - 1]);
    }
  }

  lemma SumOfThree(a: nat, b: nat, c: nat)
    ensures Sum([a, b, c]) == a + b + c
  {
    SumCons(a, [b, c]);
    SumCons(b, [c]);
    SumCons(c, []);
    assert [a] + [b, c] == [a, b, c] && [b] + [c] == [b, c] && [c] + [] == [c];
  }

  /** Every element between `lo` and `hi` puts the sum between
      `lo * |s|` and `hi * |s|`. */
  lemma {:induction false} SumBounds(s: seq<nat>, lo: nat, hi: nat)
    requires forall i :: 0 <= i < |s| ==> lo <= s[i] <= hi
    ensures lo * |s| <= Sum(s) <= hi * |s|
    decreases |s|
  {
    if s != [] {
      var n := |s| - 1;
      var init := s[..n];
      assert forall i :: 0 <= i < |init| ==> init[i] == s[i];
      SumBounds(init, lo, hi);
      assert Sum(s) == Sum(init) + s[n];
      MulStep(lo, |s|);
      MulStep(hi, |s|);
    }
  }

  /** A pointwise smaller sequence has a smaller sum. */
  lemma {:induction false} SumMonotone(a: seq<nat>, b: seq<nat>)
    requires |a| == |b| && forall i :: 0 <= i < |a| ==> a[i] <= b[i]
    ensures Sum(a) <= Sum(b)
    decreases |a|
  {
    if a != [] {
      SumMonotone(a[..|a| - 1], b[..|b| - 1]);
    }
  }

  /** The sum of two pieces is the sum of their sums. */
  lemma {:induction false} SumAppend(a: seq<nat>, b: seq<nat>)
    ensures Sum(a + b) == Sum(a) + Sum(b)
    decreases |b|
  {
    if b == [] {
      assert a + b == a;
    } else {
      assert (a + b)[..|a + b| - 1] == a + b[..|b| - 1];
      SumAppend(a, b[..|b| - 1]);
    }
  }

  /** The pieces put back together. */
  function Concat<T>(xss: seq<seq<T>>): seq<T>
  {
    if xss == [] then [] else xss[0] + Concat(xss[1..])
  }

  /** `Itertools::chunks(n)`: consecutive runs of `n` elements, the last one
      possibly shorter; nothing is lost or reordered. */
  function Chunks<T>(xs: seq<T>, n: nat): (cs: seq<seq<T>>)
    requires 0 < n
    decreases |xs|
    ensures Concat(cs) == xs
    ensures forall k :: 0 <= k < |cs| ==> 0 < |cs[k]| <= n
    ensures forall k :: 0 <= k < |cs| - 1 ==> |cs[k]| == n
  {
    if xs == [] then []
    else if |xs| <= n then
      assert Concat([xs]) == xs + Concat([]);
      [xs]
    else
      var rest := Chunks(xs[n..], n);
      assert ([xs[..n]] + rest)[1..] == rest;
      assert xs == xs[..n] + xs[n..];
      [xs[..n]] + rest
  }

  /** All chunks but the last are full, so the length is `n` times their
      number plus the length of the last one. */
  lemma {:induction false} ChunksLength<T>(xs: seq<T>, n: nat)
    requires 0 < n && xs != []
    ensures var cs := Chunks(xs, n); cs != [] && |xs| == n * (|cs| - 1) + |cs[|cs| - 1]|
    decreases |xs|
  {
    if n < |xs| {
      var rest := Chunks(xs[n..], n);
      ChunksLength(xs[n..], n);
      var cs := [xs[..n]] + rest;
      assert Chunks(xs, n) == cs;
      assert cs[|cs| - 1] == rest[|rest| - 1];
      MulStep(n, |rest|);
    }
  }

  lemma MulStep(n: nat, k: nat)
    requires 0 < k
    ensures n * k == n * (k - 1) + n
  {
  }
}
