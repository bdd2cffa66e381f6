/** The chess rules as the server borrows them from the python-chess
    library: a position, the capabilities the server calls on it, and the
    order in which `ChessGame.get_state` classifies a finished game. The
    library itself is not modelled; its answers are the fields of an
    `Engine` value that every operation receives. */
module Rules {
  import opened Strings

  datatype Color = White | Black
  {
    function Opposite(): (o: Color)
      ensures o != this
    {
      if this == White then Black else White
    }

    /** The colour name the server writes into its messages. */
    function Name(): string
    {
      if this == White then "white" else "black"
    }
  }

  /** A position: the side to move, and everything else the library keeps
      about it (placement, castling rights, counters, history) as one
      opaque layout string. */
  datatype Board = Board(turn: Color, layout: string)

  /** What the server asks python-chess. `isLegal` is the library's
      `move in board.legal_moves` test, which it decides by `is_legal` and
      not by comparing with the listed moves: it also takes a spelling the
      list does not hold, such as castling written king-onto-rook (`e1h1`
      for the listed `e1g1`). `legalMoves` is the list as the server
      writes it into its messages. `nextLayout` is `board.push` minus the
      side-to-move flip, which `Push` applies itself. */
  datatype Engine = Engine(
    parsesUci: string -> bool,
    isLegal: (Board, string) -> bool,
    legalMoves: Board -> seq<string>,
    nextLayout: (Board, string) -> string,
    san: (Board, string) -> string,
    fen: Board -> string,
    isCheck: Board -> bool,
    isCheckmate: Board -> bool,
    isStalemate: Board -> bool,
    isInsufficientMaterial: Board -> bool,
    isFiftyMoves: Board -> bool,
    isRepetition: Board -> bool,
    startLayout: string)

  /** `chess.Board()`: the standard starting position, white to move. */
  function Start(e: Engine): (b: Board)
    ensures b.turn == White
  {
    Board(White, e.startLayout)
  }

  /** `chess.Move.from_uci(m)` succeeds and the move is in `board.legal_moves`. */
  predicate IsLegal(e: Engine, b: Board, m: string)
  {
    e.parsesUci(m) && e.isLegal(b, m)
  }

  /** The library's promise that every move it lists passes its own
      legality test. The converse does not hold. */
  ghost predicate ListsLegal(e: Engine)
  {
    forall b, m :: m in e.legalMoves(b) ==> e.isLegal(b, m)
  }

  /** `board.push(move)`: the library's successor, with the other side to move. */
  function Push(e: Engine, b: Board, m: string): (next: Board)
    ensures next.turn == b.turn.Opposite() && next.turn != b.turn
  {
    Board(b.turn.Opposite(), e.nextLayout(b, m))
  }

  /** How a game ended, as the `result` field of a server message names it. */
  datatype ResultKind =
    | Checkmate | Stalemate | InsufficientMaterial | FiftyMoveRule
    | ThreefoldRepetition | Resignation | Disconnection

  /** `result` plus `winner` (`None` for a draw). */
  datatype Ending = Ending(result: ResultKind, winner: Option<Color>)

  /** Whether the library reports the condition named by `k` for `b`. The
      two endings decided by the players, not the position, are never
      reported by the library. */
  predicate Reports(e: Engine, b: Board, k: ResultKind)
  {
    match k
    case Checkmate => e.isCheckmate(b)
    case Stalemate => e.isStalemate(b)
    case InsufficientMaterial => e.isInsufficientMaterial(b)
    case FiftyMoveRule => e.isFiftyMoves(b)
    case ThreefoldRepetition => e.isRepetition(b)
    case Resignation => false
    case Disconnection => false
  }

  /** The place of `k` in the chain of tests in `get_state`. */
  function Priority(k: ResultKind): nat
  {
    match k
    case Checkmate => 0
    case Stalemate => 1
    case InsufficientMaterial => 2
    case FiftyMoveRule => 3
    case ThreefoldRepetition => 4
    case Resignation => 5
    case Disconnection => 6
  }

  /** The terminal classification of `get_state`: the first condition the
      library reports, in the order checkmate, stalemate, insufficient
      material, fifty-move rule, repetition. Only checkmate has a winner,
      the side that is not to move. */
  function Classify(e: Engine, b: Board): (r: Option<Ending>)
    ensures r.None? <==> forall k :: !Reports(e, b, k)
    ensures r.Some? ==> Reports(e, b, r.value.result)
    ensures r.Some? ==> forall k :: Priority(k) < Priority(r.value.result) ==> !Reports(e, b, k)
    ensures r.Some? ==> (r.value.winner.Some? <==> r.value.result == Checkmate)
    ensures r.Some? && r.value.result == Checkmate ==> r.value.winner == Some(b.turn.Opposite())
  {
    if e.isCheckmate(b) then
      assert Reports(e, b, Checkmate);
      Some(Ending(Checkmate, Some(b.turn.Opposite())))
    else if e.isStalemate(b) then
      assert Reports(e, b, Stalemate);
      Some(Ending(Stalemate, None))
    else if e.isInsufficientMaterial(b) then
      assert Reports(e, b, InsufficientMaterial);
      Some(Ending(InsufficientMaterial, None))
    else if e.isFiftyMoves(b) then
      assert Reports(e, b, FiftyMoveRule);
      Some(Ending(FiftyMoveRule, None))
    else if e.isRepetition(b) then
      assert Reports(e, b, ThreefoldRepetition);
      Some(Ending(ThreefoldRepetition, None))
    else None
  }
}
