/** The client's board: selecting a piece and choosing its target with
    two clicks (`board_click`), and placing piece glyphs from the FEN
    (`_draw_pieces`). Pixel geometry is not modelled: a click arrives as
    the row and column the canvas division produced. */
module BoardView {
  import opened Strings
  import opened ClientText

  /** `any(m.startswith(prefix) for m in legal)`. */
  predicate Extends(legal: seq<string>, prefix: string)
  {
    exists m :: m in legal && prefix <= m
  }

  /** The targets listed for a selected square: `move[2:4]` of each legal
      move from it, in the order of the legal moves. */
  function TargetsFrom(legal: seq<string>, square: string): (ts: seq<string>)
    ensures |ts| <= |legal|
    ensures forall t :: t in ts ==> exists m :: m in legal && square <= m && Slice(m, 2, 4) == t
  {
    if |legal| == 0 then []
    else
      var m := legal[|legal| - 1];
      var earlier := TargetsFrom(legal[..|legal| - 1], square);
      assert forall x :: x in legal[..|legal| - 1] ==> x in legal;
      earlier + if square <= m then [Slice(m, 2, 4)] else []
  }

  /** Every legal move from the square contributes its target. */
  lemma {:induction false} TargetsComplete(legal: seq<string>, square: string, m: string)
    requires m in legal && square <= m
    ensures Slice(m, 2, 4) in TargetsFrom(legal, square)
  {
    var last := legal[|legal| - 1];
    if m != last {
      assert m in legal[..|legal| - 1] by {
        var k :| 0 <= k < |legal| && legal[k] == m;
        assert legal[..|legal| - 1][k] == m;
      }
      TargetsComplete(legal[..|legal| - 1], square, m);
    }
  }

  /** A legal move that starts with `move` and carries a promotion letter. */
  predicate PromotionMove(legal: seq<string>, move: string)
  {
    exists m :: m in legal && move <= m && |m| > 4
  }

  /** `str.lower` on text whose lower-case form can be a single ASCII letter. */
  function Lower(s: string): (r: string)
    ensures |r| == |s|
  {
    if |s| == 0 then []
    else
      var c := s[0];
      [if 'A' <= c <= 'Z' then (c as int + 32) as char else c] + Lower(s[1..])
  }

  /** The letter appended to a promotion: the player's choice in lower
      case when it names a queen, rook, knight or bishop, and the queen
      otherwise (a cancelled dialog gives `None`). */
  function PromotionLetter(choice: Option<string>): (p: string)
    ensures p in ["q", "r", "n", "b"]
    ensures choice.None? ==> p == "q"
  {
    match choice
    case None => "q"
    case Some(answer) =>
      var lowered := Lower(answer);
      if answer != [] && lowered in ["q", "r", "n", "b"] then lowered else "q"
  }

  /** A move request sent to the server. */
  datatype MoveRequest = MoveRequest(gameId: string, move: string)

  /** What a click leaves: the selection, the highlighted targets and the
      move sent, if any. */
  datatype Outcome = Outcome(selected: Option<string>, targets: seq<string>, sent: Option<string>)

  /** The square under a click, seen from the player's side: black's board
      is drawn upside down, so its row and column are mirrored. */
  function Oriented(isBlack: bool, row: int, col: int): Square
  {
    if isBlack then Square(7 - row, 7 - col) else Square(row, col)
  }

  /** A click on `square` with nothing selected: select it when some
      legal move starts there. */
  function Pick(legal: seq<string>, square: string, targets: seq<string>): (o: Outcome)
  {
    if Extends(legal, square) then Outcome(Some(square), TargetsFrom(legal, square), None)
    else Outcome(None, targets, None)
  }

  /** A click on `square` with `from` selected: send the move when a legal
      move starts with it (with the promotion letter when a legal move
      promotes there), else select `square` afresh or clear the selection. */
  function Complete(legal: seq<string>, from: string, square: string, choice: Option<string>): (o: Outcome)
  {
    var base := from + square;
    var move := if PromotionMove(legal, base) then base + PromotionLetter(choice) else base;
    if Extends(legal, move) then Outcome(None, [], Some(move))
    else if Extends(legal, square) then Outcome(Some(square), TargetsFrom(legal, square), None)
    else Outcome(None, [], None)
  }

  /** `board_click` as a function of the client's state and the click. */
  function Click(inGame: bool, yourTurn: bool, isBlack: bool, legal: seq<string>,
                 selected: Option<string>, targets: seq<string>,
                 row: int, col: int, choice: Option<string>): (o: Outcome)
  {
    var sq := Oriented(isBlack, row, col);
    if !inGame || !yourTurn || !OnBoard(sq) then Outcome(selected, targets, None)
    else
      var square := SquareName(sq.row, sq.col);
      if selected.None? then Pick(legal, square, targets)
      else Complete(legal, selected.value, square, choice)
  }

  /** The selection is consistent with the legal moves: a selected square
      starts some legal move and its targets are listed; with nothing
      selected nothing is highlighted. */
  predicate SelectionValid(legal: seq<string>, selected: Option<string>, targets: seq<string>)
  {
    (selected.Some? ==> Extends(legal, selected.value) && targets == TargetsFrom(legal, selected.value)) &&
    (selected.None? ==> targets == [])
  }

  /** Clicks keep the selection consistent. */
  lemma ClickKeepsSelectionValid(inGame: bool, yourTurn: bool, isBlack: bool, legal: seq<string>,
                                 selected: Option<string>, targets: seq<string>,
                                 row: int, col: int, choice: Option<string>)
    requires SelectionValid(legal, selected, targets)
    ensures var o := Click(inGame, yourTurn, isBlack, legal, selected, targets, row, col, choice);
      SelectionValid(legal, o.selected, o.targets)
  {
  }

  /** Nothing happens outside a game, out of turn, or off the board. */
  lemma ClickIgnored(inGame: bool, yourTurn: bool, isBlack: bool, legal: seq<string>,
                     selected: Option<string>, targets: seq<string>,
                     row: int, col: int, choice: Option<string>)
    requires !inGame || !yourTurn || !OnBoard(Oriented(isBlack, row, col))
    ensures Click(inGame, yourTurn, isBlack, legal, selected, targets, row, col, choice)
         == Outcome(selected, targets, None)
  {
  }

  /** A move is sent only from a selection, only if some legal move starts
      with it, and it is the selected square, the clicked square and, for
      a promotion, the chosen letter; the selection is then cleared. */
  lemma ClickSends(inGame: bool, yourTurn: bool, isBlack: bool, legal: seq<string>,
                   selected: Option<string>, targets: seq<string>,
                   row: int, col: int, choice: Option<string>)
    ensures var o := Click(inGame, yourTurn, isBlack, legal, selected, targets, row, col, choice);
      o.sent.Some? ==>
        var sq := Oriented(isBlack, row, col);
        inGame && yourTurn && OnBoard(sq) && selected.Some? &&
        Extends(legal, o.sent.value) && o.selected.None? && o.targets == [] &&
        var base := selected.value + SquareName(sq.row, sq.col);
        o.sent.value == if PromotionMove(legal, base) then base + PromotionLetter(choice) else base
  {
  }

  /** Black's click at (row, col) is white's click at the mirrored place. */
  lemma ClickMirrored(inGame: bool, yourTurn: bool, legal: seq<string>,
                      selected: Option<string>, targets: seq<string>,
                      row: int, col: int, choice: Option<string>)
    ensures Click(inGame, yourTurn, true, legal, selected, targets, row, col, choice)
         == Click(inGame, yourTurn, false, legal, selected, targets, 7 - row, 7 - col, choice)
  {
  }

  /** `any(m.startswith(prefix) for m in legal)`, scanning in order. */
  method AnyExtends(legal: seq<string>, prefix: string) returns (found: bool)
    ensures found == Extends(legal, prefix)
  {
    var i := 0;
    while i < |legal|
      invariant 0 <= i <= |legal|
      invariant forall k :: 0 <= k < i ==> !(prefix <= legal[k])
    {
      if prefix <= legal[i] {
        assert legal[i] in legal;
        return true;
      }
      i := i + 1;
    }
    return false;
  }

  /** The loop that fills `valid_targets`. */
  method CollectTargets(legal: seq<string>, square: string) returns (ts: seq<string>)
    ensures ts == TargetsFrom(legal, square)
  {
    ts := [];
    var i := 0;
    while i < |legal|
      invariant 0 <= i <= |legal|
      invariant ts == TargetsFrom(legal[..i], square)
    {
      assert legal[..i + 1][..i] == legal[..i];
      if square <= legal[i] {
        ts := ts + [Slice(legal[i], 2, 4)];
      }
      i := i + 1;
    }
    assert legal[..i] == legal;
  }

  /** The loop that looks for a promotion among the legal moves. */
  method DetectPromotion(legal: seq<string>, move: string) returns (promotion: bool)
    ensures promotion == PromotionMove(legal, move)
  {
    var i := 0;
    while i < |legal|
      invariant 0 <= i <= |legal|
      invariant forall k :: 0 <= k < i ==> !(move <= legal[k] && |legal[k]| > 4)
    {
      if move <= legal[i] && |legal[i]| > 4 {
        return true;
      }
      i := i + 1;
    }
    return false;
  }

  /** The part of the client's state the board click reads and writes. */
  class ClientBoard {
    var gameId: string           // "" when not in a game
    var yourTurn: bool
    var isBlack: bool
    var legalMoves: seq<string>
    var selected: Option<string>
    var targets: seq<string>
    var sent: seq<MoveRequest>

    constructor ()
      ensures gameId == [] && !yourTurn && !isBlack && legalMoves == []
      ensures selected.None? && targets == [] && sent == []
    {
      gameId := [];
      yourTurn := false;
      isBlack := false;
      legalMoves := [];
      selected := None;
      targets := [];
      sent := [];
    }

    /** `board_click`: `choice` is the answer to the promotion dialog,
        read only when the move is a promotion. */
    method BoardClick(row: int, col: int, choice: Option<string>)
      modifies this`selected, this`targets, this`sent
      ensures var o := Click(old(gameId) != [], old(yourTurn), old(isBlack), old(legalMoves),
                             old(selected), old(targets), row, col, choice);
        selected == o.selected && targets == o.targets &&
        sent == old(sent) + if o.sent.Some? then [MoveRequest(old(gameId), o.sent.value)] else []
    {
      if gameId == [] || !yourTurn {
        return;
      }
      var r, c := row, col;
      if isBlack {
        c := 7 - c;
        r := 7 - r;
      }
      if !(0 <= r < 8 && 0 <= c < 8) {
        return;
      }
      var square := SquareName(r, c);
      assert Oriented(isBlack, row, col) == Square(r, c);
      ghost var o := Click(true, true, isBlack, legalMoves, selected, targets, row, col, choice);
      if selected.None? {
        assert o == Pick(legalMoves, square, targets);
        SelectSquare(square);
      } else {
        assert o == Complete(legalMoves, selected.value, square, choice);
        CompleteMove(selected.value, square, choice);
      }
    }

    /** The first click: select `square` if it has legal moves. */
    method SelectSquare(square: string)
      requires selected.None?
      modifies this`selected, this`targets
      ensures var o := Pick(legalMoves, square, old(targets));
        selected == o.selected && targets == o.targets
    {
      var hasMoves := AnyExtends(legalMoves, square);
      if hasMoves {
        selected := Some(square);
        targets := CollectTargets(legalMoves, square);
      }
    }

    /** The second click: send the move from `from` to `square`, or
        reselect, or clear. */
    method CompleteMove(from: string, square: string, choice: Option<string>)
      modifies this`selected, this`targets, this`sent
      ensures var o := Complete(legalMoves, from, square, choice);
        selected == o.selected && targets == o.targets &&
        sent == old(sent) + if o.sent.Some? then [MoveRequest(gameId, o.sent.value)] else []
    {
      var move := from + square;
      var promotion := DetectPromotion(legalMoves, move);
      if promotion {
        move := move + PromotionLetter(choice);
      }
      var legal := AnyExtends(legalMoves, move);
      if legal {
        sent := sent + [MoveRequest(gameId, move)];
        selected := None;
        targets := [];
        return;
      }
      var hasMoves := AnyExtends(legalMoves, square);
      if hasMoves {
        selected := Some(square);
        targets := CollectTargets(legalMoves, square);
      } else {
        selected := None;
        targets := [];
      }
    }
  }
}
