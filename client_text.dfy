/** The text the client derives from a `game_state` message: the material
    count shown as the evaluation, the names of board squares, the two
    clocks and the numbered move list. */
module ClientText {
  import opened Strings

  /** The `piece_values` table of `evaluate_position`: white pieces count
      up, black pieces down, kings and every other character nothing. */
  function PieceValue(c: char): (v: int)
    ensures -9 <= v <= 9
    ensures c == 'K' || c == 'k' ==> v == 0
  {
    match c
    case 'P' => 1
    case 'N' => 3
    case 'B' => 3
    case 'R' => 5
    case 'Q' => 9
    case 'p' => -1
    case 'n' => -3
    case 'b' => -3
    case 'r' => -5
    case 'q' => -9
    case _ => 0
  }

  /** The material balance of a placement text, summed from the left. */
  function Material(s: string): int
  {
    if |s| == 0 then 0 else Material(s[..|s| - 1]) + PieceValue(s[|s| - 1])
  }

  /** The balance of two texts side by side is the sum of their balances. */
  lemma {:induction false} MaterialAppend(a: string, b: string)
    ensures Material(a + b) == Material(a) + Material(b)
    decreases |b|
  {
    if |b| == 0 {
      assert a + b == a;
    } else {
      var ab := a + b;
      assert ab[..|ab| - 1] == a + b[..|b| - 1];
      assert ab[|ab| - 1] == b[|b| - 1];
      MaterialAppend(a, b[..|b| - 1]);
    }
  }

  /** `str.swapcase` on one ASCII character: a piece of the other colour. */
  function OtherColour(c: char): (d: char)
    ensures PieceValue(d) == -PieceValue(c)
  {
    if 'A' <= c <= 'Z' then (c as int + 32) as char
    else if 'a' <= c <= 'z' then (c as int - 32) as char
    else c
  }

  /** Exchanging the colours of every piece negates the balance. */
  lemma {:induction false} MaterialOtherColour(s: string, t: string)
    requires |s| == |t| && forall i :: 0 <= i < |s| ==> t[i] == OtherColour(s[i])
    ensures Material(t) == -Material(s)
    decreases |s|
  {
    if |s| > 0 {
      MaterialOtherColour(s[..|s| - 1], t[..|t| - 1]);
    }
  }

  /** Separators and empty-square counts weigh nothing. */
  lemma {:induction false} MaterialOfGaps(s: string)
    requires forall i :: 0 <= i < |s| ==> s[i] == '/' || IsDigit(s[i])
    ensures Material(s) == 0
    decreases |s|
  {
    if |s| > 0 {
      MaterialOfGaps(s[..|s| - 1]);
    }
  }

  /** The evaluation label: `+n` for a white advantage, `-n` for a black
      one, `Even` for a level count. */
  function EvalText(score: int): (t: string)
    ensures |t| >= 1
    ensures t[0] == '+' <==> score > 0
    ensures t[0] == '-' <==> score < 0
  {
    if score > 0 then "+" + IntToString(score)
    else if score < 0 then IntToString(score)
    else "Even"
  }

  /** Reads a label back: the inverse of `EvalText`. */
  function ParseEval(t: string): Option<int>
  {
    if t == "Even" then Some(0)
    else if |t| > 1 && t[0] == '+' then
      match ParseInt(t[1..])
      case Some(n) => if n > 0 then Some(n) else None
      case None => None
    else
      match ParseInt(t)
      case Some(n) => if n < 0 then Some(n) else None
      case None => None
  }

  lemma EvalTextRoundTrip(score: int)
    ensures ParseEval(EvalText(score)) == Some(score)
  {
    var t := EvalText(score);
    if score > 0 {
      IntToStringRoundTrip(score);
      assert t[1..] == IntToString(score);
      assert t != "Even";
    } else if score < 0 {
      IntToStringRoundTrip(score);
      assert t != "Even";
    }
  }

  /** `evaluate_position`: the balance of the placement field (the text
      before the first space), as a label. */
  method EvaluatePosition(fen: string) returns (shown: string)
    ensures shown == EvalText(Material(FirstField(fen, ' ')))
  {
    var placement := FirstField(fen, ' ');
    var score := 0;
    var i := 0;
    while i < |placement|
      invariant 0 <= i <= |placement|
      invariant score == Material(placement[..i])
    {
      assert placement[..i + 1][..i] == placement[..i];
      score := score + PieceValue(placement[i]);
      i := i + 1;
    }
    assert placement[..i] == placement;
    if score > 0 {
      shown := "+" + IntToString(score);
    } else if score < 0 {
      shown := IntToString(score);
    } else {
      shown := "Even";
    }
  }

  /** The placement field of the standard starting position. */
  const StartPlacement: string :=
    "rnbqkbnr" + "/" + "pppppppp" + "/8/8/8/8/" + "PPPPPPPP" + "/" + "RNBQKBNR"

  /** The starting position is level: each black rank is the white one
      with the colours exchanged, and the rest weighs nothing. */
  lemma StartIsEven()
    ensures EvalText(Material(StartPlacement)) == "Even"
  {
    var back, pawns, gaps := "rnbqkbnr", "pppppppp", "/8/8/8/8/";
    var whitePawns, whiteBack := "PPPPPPPP", "RNBQKBNR";
    MaterialOtherColour(back, whiteBack);
    MaterialOtherColour(pawns, whitePawns);
    MaterialOfGaps("/");
    MaterialOfGaps(gaps);
    MaterialAppend(back, "/");
    MaterialAppend(back + "/", pawns);
    MaterialAppend(back + "/" + pawns, gaps);
    MaterialAppend(back + "/" + pawns + gaps, whitePawns);
    MaterialAppend(back + "/" + pawns + gaps + whitePawns, "/");
    MaterialAppend(back + "/" + pawns + gaps + whitePawns + "/", whiteBack);
  }

  /** A board square by row (0 at the top, rank 8) and column (0 for
      file a). */
  datatype Square = Square(row: int, col: int)

  predicate OnBoard(sq: Square)
  {
    0 <= sq.row < 8 && 0 <= sq.col < 8
  }

  /** `_get_square_name(row, col)`: the file letter `chr(97 + col)`, then
      the rank `8 - row` in decimal. */
  function SquareName(row: int, col: int): (name: string)
    requires 0 <= 97 + col < 0xD800
    ensures |name| >= 2
    ensures 0 <= row < 8 ==> |name| == 2 && '1' <= name[1] <= '8'
  {
    [(97 + col) as char] + IntToString(8 - row)
  }

  /** Reads a two-character square name `a1` .. `h8` back into a square. */
  function ParseSquare(name: string): (sq: Option<Square>)
    ensures sq.Some? ==> OnBoard(sq.value)
  {
    if |name| == 2 && 'a' <= name[0] <= 'h' && '1' <= name[1] <= '8' then
      Some(Square(8 - (name[1] as int - '0' as int), name[0] as int - 'a' as int))
    else None
  }

  /** Every board square has a name that reads back as that square. */
  lemma SquareNameRoundTrip(sq: Square)
    requires OnBoard(sq)
    ensures ParseSquare(SquareName(sq.row, sq.col)) == Some(sq)
  {
    var name := SquareName(sq.row, sq.col);
    assert name[1..] == NatToString(8 - sq.row) == [DigitChar(8 - sq.row)];
  }

  /** Every name `a1` .. `h8` is the name of the square it reads as, so
      naming is a bijection between the 64 squares and these names. */
  lemma ParseSquareRoundTrip(name: string)
    requires ParseSquare(name).Some?
    ensures SquareName(ParseSquare(name).value.row, ParseSquare(name).value.col) == name
  {
    var sq := ParseSquare(name).value;
    assert SquareName(sq.row, sq.col)[1..] == [DigitChar(8 - sq.row)];
  }

  /** `f"{n:02d}"` for `0 <= n < 100`. */
  function TwoDigits(n: nat): (r: string)
    requires n < 100
    ensures |r| == 2 && IsDigit(r[0]) && IsDigit(r[1])
    ensures DigitsValue(r) == n
  {
    var r := [DigitChar(n / 10), DigitChar(n % 10)];
    assert r[..1] == [DigitChar(n / 10)] && r[..1][..0] == [];
    assert DigitsValue(r[..1]) == n / 10;
    r
  }

  /** The clock label `f"{t//60}:{t%60:02d}"`. Python's `//` and `%` by a
      positive divisor round toward minus infinity, as Dafny's do. */
  function ClockText(t: int): (r: string)
    ensures |r| >= 4 && r[|r| - 3] == ':'
    ensures var secs := r[|r| - 2..]; IsDigit(secs[0]) && IsDigit(secs[1]) && DigitsValue(secs) < 60
  {
    var r := IntToString(t / 60) + ":" + TwoDigits(t % 60);
    assert r[|r| - 2..] == TwoDigits(t % 60);
    r
  }

  /** Reads a clock label back: minutes before the colon, then exactly two
      digits of seconds below 60. */
  function ParseClock(text: string): Option<int>
  {
    var i := Find(text, ':');
    if i < 0 || |text| - i != 3 then None
    else
      var secs := text[i + 1..];
      if !(IsDigit(secs[0]) && IsDigit(secs[1])) then None
      else
        match ParseInt(text[..i])
        case None => None
        case Some(m) => if DigitsValue(secs) < 60 then Some(m * 60 + DigitsValue(secs)) else None
  }

  /** Decimal text never holds a colon. */
  lemma NoColonInNumber(i: int)
    ensures ':' !in IntToString(i)
  {
    var r := IntToString(i);
    var digits := NatToString(if i < 0 then -i else i);
    forall k | 0 <= k < |r| ensures r[k] != ':' {
      if i < 0 && k > 0 {
        assert r[k] == digits[k - 1];
      }
    }
  }

  /** The clock label names the time it was made from. */
  lemma ClockRoundTrip(t: int)
    ensures ParseClock(ClockText(t)) == Some(t)
  {
    var minutes := IntToString(t / 60);
    var r := ClockText(t);
    NoColonInNumber(t / 60);
    assert r == minutes + [':'] + TwoDigits(t % 60);
    assert r[|minutes|] == ':' && r[..|minutes|] == minutes;
    assert Find(r, ':') == |minutes|;
    IntToStringRoundTrip(t / 60);
    assert r[|minutes| + 1..] == TwoDigits(t % 60);
  }

  /** The text `update_move_history` inserts for move `i`: white's moves
      open a numbered pair, black's close it with a line break. */
  function Entry(i: nat, move: string): string
  {
    if i % 2 == 0 then IntToString(i / 2 + 1) + ". " + move + " " else move + "\n"
  }

  /** The move list as the loop writes it, one entry per move. */
  function History(moves: seq<string>): string
  {
    if |moves| == 0 then [] else History(moves[..|moves| - 1]) + Entry(|moves| - 1, moves[|moves| - 1])
  }

  /** The move list read as numbered lines: `n. white black` for each full
      pair from move `i` on, and `n. white ` for a white move still
      waiting for its answer. */
  function Lines(moves: seq<string>, i: nat): string
    requires i % 2 == 0 && i <= |moves|
    decreases |moves| - i
  {
    var number := IntToString(i / 2 + 1);
    if i == |moves| then []
    else if i + 1 == |moves| then number + ". " + moves[i] + " "
    else number + ". " + moves[i] + " " + moves[i + 1] + "\n" + Lines(moves, i + 2)
  }

  /** A full pair of moves is the two entries the loop writes for it. */
  lemma PairLine(moves: seq<string>, i: nat)
    requires i % 2 == 0 && i + 2 <= |moves|
    ensures Lines(moves, i) == Entry(i, moves[i]) + Entry(i + 1, moves[i + 1]) + Lines(moves, i + 2)
  {
    var number := IntToString(i / 2 + 1);
    assert (i + 1) / 2 + 1 == i / 2 + 1;
    assert Entry(i, moves[i]) == number + ". " + moves[i] + " ";
  }

  /** The loop's text after `j` moves: the text after `j - 1` and one more
      entry. */
  lemma HistoryStep(moves: seq<string>, j: nat)
    requires 0 < j <= |moves|
    ensures History(moves[..j]) == History(moves[..j - 1]) + Entry(j - 1, moves[j - 1])
  {
    assert moves[..j][..j - 1] == moves[..j - 1];
  }

  /** A white move without its answer ends the list with its entry. */
  lemma LoneWhite(moves: seq<string>, i: nat)
    requires i % 2 == 0 && i + 1 == |moves|
    ensures History(moves[..i]) + Lines(moves, i) == History(moves)
  {
    HistoryStep(moves, i + 1);
    assert moves[..i + 1] == moves;
  }

  /** Moving one full pair from the numbered lines to the written text. */
  lemma PairStep(moves: seq<string>, i: nat)
    requires i % 2 == 0 && i + 2 <= |moves|
    ensures History(moves[..i]) + Lines(moves, i) == History(moves[..i + 2]) + Lines(moves, i + 2)
  {
    PairLine(moves, i);
    HistoryStep(moves, i + 2);
    HistoryStep(moves, i + 1);
    RegroupFields(History(moves[..i]), Entry(i, moves[i]), Entry(i + 1, moves[i + 1]), Lines(moves, i + 2));
  }

  /** Writing the moves one entry at a time gives the numbered lines. */
  lemma {:induction false} HistoryLines(moves: seq<string>, i: nat)
    requires i % 2 == 0 && i <= |moves|
    ensures History(moves[..i]) + Lines(moves, i) == History(moves)
    decreases |moves| - i
  {
    if i == |moves| {
      assert moves[..i] == moves;
    } else if i + 1 == |moves| {
      LoneWhite(moves, i);
    } else {
      PairStep(moves, i);
      HistoryLines(moves, i + 2);
    }
  }

  lemma RegroupFields(a: string, b: string, c: string, d: string)
    ensures a + (b + c + d) == (a + b + c) + d
  {
  }

  /** `update_move_history`: the entries of all moves, in order. */
  method FormatMoveHistory(moves: seq<string>) returns (text: string)
    ensures text == History(moves)
    ensures text == Lines(moves, 0)
  {
    text := [];
    var i := 0;
    while i < |moves|
      invariant 0 <= i <= |moves|
      invariant text == History(moves[..i])
    {
      HistoryStep(moves, i + 1);
      if i % 2 == 0 {
        text := text + (IntToString(i / 2 + 1) + ". " + moves[i] + " ");
      } else {
        text := text + (moves[i] + "\n");
      }
      i := i + 1;
    }
    assert moves[..i] == moves;
    HistoryLines(moves, 0);
    assert moves[..0] == [];
  }
}
