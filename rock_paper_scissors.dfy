/** Day 2 (rock paper scissors): every line is a round, the opponent's
    symbol, a space and a second symbol. `Part1` reads the second symbol as
    the hand to play, `Part2` as the outcome wanted, and both add up the
    score of every round. */
module RockPaperScissors {
  import opened Text

  datatype HandSign = Rock | Paper | Scissor

  datatype BattleResult = Lost | Draw | Won

  /** The score of the hand played (the enum's discriminant). */
  function ShapeScore(h: HandSign): (n: nat)
    ensures 1 <= n <= 3
  {
    match h
    case Rock => 1
    case Paper => 2
    case Scissor => 3
  }

  /** The score of the outcome (the enum's discriminant). */
  function ResultScore(r: BattleResult): (n: nat)
    ensures n == 0 || n == 3 || n == 6
  {
    match r
    case Lost => 0
    case Draw => 3
    case Won => 6
  }

  /** The outcome for the player of `my` against `opponent`, as the table of
      `calculate_score` lists it. */
  function Battle(my: HandSign, opponent: HandSign): (r: BattleResult)
    ensures r == Draw <==> my == opponent
    ensures r == Won <==> opponent == Beaten(my)
    ensures r == Lost <==> opponent == Beater(my)
  {
    match (my, opponent)
    case (Rock, Paper) => Lost
    case (Paper, Scissor) => Lost
    case (Scissor, Rock) => Lost
    case (Rock, Rock) => Draw
    case (Paper, Paper) => Draw
    case (Scissor, Scissor) => Draw
    case (Rock, Scissor) => Won
    case (Paper, Rock) => Won
    case (Scissor, Paper) => Won
  }

  /** `calculate_score`: the score of the hand plus the score of the outcome. */
  function CalculateScore(my: HandSign, opponent: HandSign): (s: nat)
    ensures 1 <= s <= 9
    ensures s % 3 == ShapeScore(my) % 3
  {
    ShapeScore(my) + ResultScore(Battle(my, opponent))
  }

  /** The hand that `h` beats. */
  function Beaten(h: HandSign): HandSign
  {
    match h
    case Rock => Scissor
    case Paper => Rock
    case Scissor => Paper
  }

  /** The hand that beats `h`. */
  function Beater(h: HandSign): HandSign
  {
    match h
    case Rock => Paper
    case Paper => Scissor
    case Scissor => Rock
  }

  /** The table agrees with the cyclic rule: each hand beats the hand whose
      score is one less, counted modulo 3. */
  lemma BattleIsCyclic(my: HandSign, opponent: HandSign)
    ensures Battle(my, opponent) == Draw <==> (ShapeScore(my) - ShapeScore(opponent)) % 3 == 0
    ensures Battle(my, opponent) == Won <==> (ShapeScore(my) - ShapeScore(opponent)) % 3 == 1
    ensures Battle(my, opponent) == Lost <==> (ShapeScore(my) - ShapeScore(opponent)) % 3 == 2
  {
  }

  /** The hand a hand beats, the hand that beats it and the hand itself are
      three different hands; with the ensures of `Battle`, every hand
      beats exactly one hand, loses to exactly one and draws with itself. */
  lemma BeatsExactlyOne(my: HandSign)
    ensures Beaten(my) != Beater(my) && Beaten(my) != my && Beater(my) != my
  {
  }

  /** Swapping the players swaps winning and losing. */
  lemma BattleAntisymmetric(my: HandSign, opponent: HandSign)
    ensures Battle(my, opponent) == Won <==> Battle(opponent, my) == Lost
    ensures Battle(my, opponent) == Draw <==> Battle(opponent, my) == Draw
  {
  }

  /** The table of `part_2`: the hand to play against `opponent` so that the
      round ends with `result`. */
  function ChooseSign(opponent: HandSign, result: BattleResult): (my: HandSign)
    ensures Battle(my, opponent) == result
  {
    match (opponent, result)
    case (Paper, Lost) => Rock
    case (Rock, Draw) => Rock
    case (Scissor, Won) => Rock
    case (Scissor, Lost) => Paper
    case (Paper, Draw) => Paper
    case (Rock, Won) => Paper
    case (Rock, Lost) => Scissor
    case (Scissor, Draw) => Scissor
    case (Paper, Won) => Scissor
  }

  /** The inverse table is consistent with the forward one: the chosen hand
      gives the outcome asked for, and it is the only hand that does. */
  lemma ChooseSignCorrect(opponent: HandSign, result: BattleResult, my: HandSign)
    ensures Battle(ChooseSign(opponent, result), opponent) == result
    ensures Battle(my, opponent) == result ==> my == ChooseSign(opponent, result)
  {
  }

  /** Against a given opponent the three outcomes call for three different
      hands. */
  lemma ChooseSignInjective(opponent: HandSign, r1: BattleResult, r2: BattleResult)
    ensures ChooseSign(opponent, r1) == ChooseSign(opponent, r2) ==> r1 == r2
  {
  }

  // ---------------------------------------------------------------------
  // Reading a round

  /** Why a line is rejected: `try_into().unwrap()` on a trimmed line that
      is not three bytes long, or `unreachable!()` on a symbol outside the
      ranges. */
  datatype Error = BadLength(line: seq<byte>) | BadOpponent(symbol: byte) | BadSymbol(symbol: byte)

  /** The first and third byte of the trimmed line, which must be exactly
      three bytes long; the middle byte is not looked at. */
  function Symbols(line: seq<byte>): (r: Result<(byte, byte), Error>)
    ensures r.Ok? <==> |Trim(line)| == 3
    ensures r.Ok? ==> r.value == (Trim(line)[0], Trim(line)[2])
    ensures r.Err? ==> r.error == BadLength(line)
  {
    var t := Trim(line);
    if |t| != 3 then Err(BadLength(line)) else Ok((t[0], t[2]))
  }

  /** `A`, `B`, `C`: the opponent's hand. */
  function OpponentSign(b: byte): (r: Option<HandSign>)
    ensures r.Some? <==> 'A' <= b <= 'C'
  {
    if b == 'A' then Some(Rock)
    else if b == 'B' then Some(Paper)
    else if b == 'C' then Some(Scissor)
    else None
  }

  /** `X`, `Y`, `Z` in the first part: the hand to play. */
  function MySign(b: byte): (r: Option<HandSign>)
    ensures r.Some? <==> 'X' <= b <= 'Z'
  {
    if b == 'X' then Some(Rock)
    else if b == 'Y' then Some(Paper)
    else if b == 'Z' then Some(Scissor)
    else None
  }

  /** `X`, `Y`, `Z` in the second part: the outcome wanted. */
  function WantedResult(b: byte): (r: Option<BattleResult>)
    ensures r.Some? <==> 'X' <= b <= 'Z'
  {
    if b == 'X' then Some(Lost)
    else if b == 'Y' then Some(Draw)
    else if b == 'Z' then Some(Won)
    else None
  }

  /** The letter that stands for a hand, for the opponent and for the player
      in the first part. */
  function OpponentSymbol(h: HandSign): byte
  {
    match h
    case Rock => 'A'
    case Paper => 'B'
    case Scissor => 'C'
  }

  function MySymbol(h: HandSign): byte
  {
    match h
    case Rock => 'X'
    case Paper => 'Y'
    case Scissor => 'Z'
  }

  function ResultSymbol(r: BattleResult): byte
  {
    match r
    case Lost => 'X'
    case Draw => 'Y'
    case Won => 'Z'
  }

  /** The symbol tables are one-to-one: each decoding undoes its encoding,
      and a symbol that decodes is the encoding of what it decodes to. */
  lemma SymbolsRoundTrip(h: HandSign, r: BattleResult, b: byte)
    ensures OpponentSign(OpponentSymbol(h)) == Some(h)
    ensures MySign(MySymbol(h)) == Some(h)
    ensures WantedResult(ResultSymbol(r)) == Some(r)
    ensures OpponentSign(b).Some? ==> OpponentSymbol(OpponentSign(b).value) == b
    ensures MySign(b).Some? ==> MySymbol(MySign(b).value) == b
    ensures WantedResult(b).Some? ==> ResultSymbol(WantedResult(b).value) == b
  {
  }

  /** The score of one line in the first part: the opponent's letter, then
      the hand to play. */
  function RoundScore1(line: seq<byte>): (r: Result<nat, Error>)
    ensures r.Ok? <==> var t := Trim(line);
      |t| == 3 && 'A' <= t[0] <= 'C' && 'X' <= t[2] <= 'Z'
    ensures r.Ok? ==> 1 <= r.value <= 9
  {
    match Symbols(line)
    case Err(e) => Err(e)
    case Ok((a, c)) =>
      match OpponentSign(a)
      case None => Err(BadOpponent(a))
      case Some(opponent) =>
        match MySign(c)
        case None => Err(BadSymbol(c))
        case Some(my) => Ok(CalculateScore(my, opponent))
  }

  /** The score of one line in the second part: the opponent's letter, then
      the outcome wanted; the hand comes from the inverse table. */
  function RoundScore2(line: seq<byte>): (r: Result<nat, Error>)
    ensures r.Ok? <==> var t := Trim(line);
      |t| == 3 && 'A' <= t[0] <= 'C' && 'X' <= t[2] <= 'Z'
    ensures r.Ok? ==> 1 <= r.value <= 9
  {
    match Symbols(line)
    case Err(e) => Err(e)
    case Ok((a, c)) =>
      match OpponentSign(a)
      case None => Err(BadOpponent(a))
      case Some(opponent) =>
        match WantedResult(c)
        case None => Err(BadSymbol(c))
        case Some(result) =>
          ChooseSignCorrect(opponent, result, Rock);
          Ok(ShapeScore(ChooseSign(opponent, result)) + ResultScore(result))
  }

  /** The score of a round of the second part is the score `calculate_score`
      gives to the chosen hand against the opponent, for every line the
      second part accepts. */
  lemma RoundScore2IsCalculateScore(line: seq<byte>)
    requires |Trim(line)| == 3 && 'A' <= Trim(line)[0] <= 'C' && 'X' <= Trim(line)[2] <= 'Z'
    ensures var opponent := OpponentSign(Trim(line)[0]).value;
      var result := WantedResult(Trim(line)[2]).value;
      RoundScore2(line) == Ok(CalculateScore(ChooseSign(opponent, result), opponent))
  {
    var opponent := OpponentSign(Trim(line)[0]).value;
    var result := WantedResult(Trim(line)[2]).value;
    ChooseSignCorrect(opponent, result, Rock);
  }

  /** The same for a round written out from its opponent and outcome. */
  lemma RoundScore2OfSymbols(opponent: HandSign, result: BattleResult)
    ensures RoundScore2([OpponentSymbol(opponent), ' ', ResultSymbol(result)])
              == Ok(CalculateScore(ChooseSign(opponent, result), opponent))
  {
    var line := [OpponentSymbol(opponent), ' ', ResultSymbol(result)];
    TrimOfThree(line);
    SymbolsRoundTrip(opponent, result, 'A');
    RoundScore2IsCalculateScore(line);
  }

  /** A line of three bytes with no whitespace at either end is its own trim. */
  lemma TrimOfThree(line: seq<byte>)
    requires |line| == 3 && !IsWhitespace(line[0]) && !IsWhitespace(line[2])
    ensures Trim(line) == line
  {
    assert TrimStartIndex(line) == 0;
    assert TrimEndIndex(line) == 3;
  }

  /** The same round read in the two parts: the line gives a score in one
      part exactly when it does in the other, and fails with the same error
      otherwise (both accept `X`, `Y` and `Z` only). */
  lemma SameRoundErrors(line: seq<byte>)
    ensures RoundScore1(line).Ok? <==> RoundScore2(line).Ok?
    ensures RoundScore1(line).Err? ==> RoundScore1(line).error == RoundScore2(line).error
  {
  }

  /** The middle byte of a line and whitespace around it do not matter: two
      lines whose trims agree on their first and last byte score the same. */
  lemma MiddleIgnored(line1: seq<byte>, line2: seq<byte>)
    requires |Trim(line1)| == 3 && |Trim(line2)| == 3
    requires Trim(line1)[0] == Trim(line2)[0] && Trim(line1)[2] == Trim(line2)[2]
    ensures RoundScore1(line1) == RoundScore1(line2)
    ensures RoundScore2(line1) == RoundScore2(line2)
  {
  }

  // ---------------------------------------------------------------------
  // The two parts

  /** `part_1`: the sum of the scores of all lines, or the first line's
      error. */
  function Part1(input: seq<byte>): (r: Result<nat, Error>)
    ensures r.Ok? <==> forall i :: 0 <= i < |Lines(input)| ==> RoundScore1(Lines(input)[i]).Ok?
    ensures Lines(input) == [] ==> r == Ok(0)
  {
    match MapAll(Lines(input), RoundScore1)
    case Err(e) => Err(e)
    case Ok(scores) => Ok(Sum(scores))
  }

  /** `part_2`: the sum of the scores of all lines, or the first line's
      error. */
  function Part2(input: seq<byte>): (r: Result<nat, Error>)
    ensures r.Ok? <==> forall i :: 0 <= i < |Lines(input)| ==> RoundScore2(Lines(input)[i]).Ok?
    ensures Lines(input) == [] ==> r == Ok(0)
  {
    match MapAll(Lines(input), RoundScore2)
    case Err(e) => Err(e)
    case Ok(scores) => Ok(Sum(scores))
  }

  /** Every round scores between 1 and 9, so each total is between the
      number of lines and nine times that. */
  lemma TotalBounds(input: seq<byte>)
    ensures Part1(input).Ok? ==> |Lines(input)| <= Part1(input).value <= 9 * |Lines(input)|
    ensures Part2(input).Ok? ==> |Lines(input)| <= Part2(input).value <= 9 * |Lines(input)|
  {
    var ls := Lines(input);
    if Part1(input).Ok? {
      SumBounds(MapAll(ls, RoundScore1).value, 1, 9);
    }
    if Part2(input).Ok? {
      SumBounds(MapAll(ls, RoundScore2).value, 1, 9);
    }
  }

  /** Both parts reject the same inputs, with the same error. */
  lemma SameErrors(input: seq<byte>)
    ensures Part1(input).Ok? <==> Part2(input).Ok?
    ensures Part1(input).Err? ==> Part1(input).error == Part2(input).error
  {
    forall line | line in Lines(input) ensures RoundScore1(line).Ok? <==> RoundScore2(line).Ok? {
      SameRoundErrors(line);
    }
    forall line | line in Lines(input) && RoundScore1(line).Err?
      ensures RoundScore1(line).error == RoundScore2(line).error
    {
      SameRoundErrors(line);
    }
    MapAllSameErrors(Lines(input), RoundScore1, RoundScore2);
  }

  // ---------------------------------------------------------------------
  // The example of the puzzle

  /** The rounds `A Y`, `B X`, `C Z`: 8, 1 and 6 in the first part. */
  lemma ExampleRounds1()
    ensures RoundScore1("A Y") == Ok(8) && RoundScore1("B X") == Ok(1) && RoundScore1("C Z") == Ok(6)
  {
    TrimOfThree("A Y");
    TrimOfThree("B X");
    TrimOfThree("C Z");
  }

  /** The lines of the second part's example, indented as the tests write
      them. */
  const IndentedRounds: seq<seq<byte>> := ["A Y", "    B X", "    C Z"]

  /** The same rounds indented by four spaces: 4, 1 and 7 in the second part. */
  lemma ExampleRounds2()
    ensures RoundScore2(IndentedRounds[0]) == Ok(4)
    ensures RoundScore2(IndentedRounds[1]) == Ok(1)
    ensures RoundScore2(IndentedRounds[2]) == Ok(7)
  {
    IndentedAY();
    IndentedBX();
    IndentedCZ();
  }

  lemma IndentedAY()
    ensures RoundScore2(IndentedRounds[0]) == Ok(4)
  {
    TrimOfThree("A Y");
  }

  lemma IndentedBX()
    ensures RoundScore2(IndentedRounds[1]) == Ok(1)
  {
    TrimOfThree("B X");
    IndentedScore2("B X", 1);
    assert IndentedRounds[1] == "    " + "B X";
  }

  lemma IndentedCZ()
    ensures RoundScore2(IndentedRounds[2]) == Ok(7)
  {
    TrimOfThree("C Z");
    IndentedScore2("C Z", 7);
    assert IndentedRounds[2] == "    " + "C Z";
  }

  lemma IndentedScore2(line: seq<byte>, score: nat)
    requires |line| == 3 && !IsWhitespace(line[0]) && !IsWhitespace(line[2])
    requires RoundScore2(line) == Ok(score)
    ensures RoundScore2("    " + line) == Ok(score)
  {
    IndentedRound(line);
    TrimOfThree(line);
    MiddleIgnored(line, "    " + line);
  }

  lemma IndentedRound(line: seq<byte>)
    requires |line| == 3 && !IsWhitespace(line[0]) && !IsWhitespace(line[2])
    ensures Trim("    " + line) == line
  {
    var s := "    " + line;
    assert TrimStartIndex(s[4..]) == 0;
    assert TrimStartIndex(s[3..]) == 1 && TrimStartIndex(s[2..]) == 2;
    assert TrimStartIndex(s[1..]) == 3 && TrimStartIndex(s) == 4;
    assert TrimEndIndex(s) == 7;
    assert s[4..7] == line;
  }

  /** Three lines and their scores give the sum of the scores. */
  lemma ThreeRounds(ls: seq<seq<byte>>, f: seq<byte> -> Result<nat, Error>, a: nat, b: nat, c: nat)
    requires |ls| == 3 && ls[2] != [] && forall k :: 0 <= k < 3 ==> PlainLine(ls[k])
    requires f(ls[0]) == Ok(a) && f(ls[1]) == Ok(b) && f(ls[2]) == Ok(c)
    ensures MapAll(Lines(Join(ls, [NL])), f) == Ok([a, b, c])
  {
    LinesOfJoin(ls);
    MapAllOk(ls, f, [a, b, c]);
  }

  /** The example of the puzzle in the first part: `A Y`, `B X`, `C Z` on
      three lines score 8 + 1 + 6 = 15. */
  lemma Example1()
    ensures Part1(Join(["A Y", "B X", "C Z"], [NL])) == Ok(15)
  {
    ExampleRounds1();
    ThreeRounds(["A Y", "B X", "C Z"], RoundScore1, 8, 1, 6);
    SumOfThree(8, 1, 6);
  }

  lemma IndentedRoundsPlain()
    ensures |IndentedRounds| == 3 && IndentedRounds[2] != []
    ensures forall k :: 0 <= k < 3 ==> PlainLine(IndentedRounds[k])
  {
    assert PlainLine(IndentedRounds[0]);
    assert PlainLine(IndentedRounds[1]);
    assert PlainLine(IndentedRounds[2]);
  }

  /** The example in the second part: 4 + 1 + 7 = 12. */
  lemma Example2()
    ensures Part2(Join(IndentedRounds, [NL])) == Ok(12)
  {
    ExampleRounds2();
    IndentedRoundsPlain();
    ThreeRounds(IndentedRounds, RoundScore2, 4, 1, 7);
    SumOfThree(4, 1, 7);
  }
}
