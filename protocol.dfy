/** The messages the game server sends to a client, as tagged values
    instead of JSON dictionaries. */
module Protocol {
  import opened Strings
  import opened Rules

  /** Why `ChessGame.make_move` refused a move. */
  datatype MoveError =
    | Malformed         // `chess.Move.from_uci` raised; the reply carries the exception text
    | IllegalMove       // "Illegal move"
    | OutOfTime(side: Color)  // "White ran out of time" / "Black ran out of time"

  /** The `error` replies of the handlers. */
  datatype Reason =
    | AlreadyInLobby    // "Already in a lobby"
    | LobbyNotFound     // "Lobby not found"
    | LobbyIsFull       // "Lobby is full"
    | FailedToJoin      // "Failed to join lobby"
    | NotHost           // "Only the host can start the game"
    | NeedTwoPlayers    // "Need at least 2 players to start"
    | GameNotFound      // "Game not found"
    | NotAPlayer        // "Not a player in this game"
    | NotYourTurn       // "Not your turn"
    | InvalidMove(cause: MoveError)  // "Invalid move: ..."
    | AlreadyInGame     // "Already in this game"

  /** The `game_state` dictionary built by `ChessGame.get_state`; `ending`
      holds `result` and `winner` when the dictionary has `game_over`. */
  datatype StateView = StateView(
    gameId: string,
    boardFen: string,
    turn: Color,
    yourTurn: bool,
    inCheck: bool,
    legalMoves: seq<string>,
    whitePlayer: string,
    blackPlayer: string,
    whiteTime: int,
    blackTime: int,
    moveHistory: seq<string>,
    ending: Option<Ending>)

  /** One entry of the `lobbies_list` reply. */
  datatype LobbyInfo = LobbyInfo(
    lobbyId: string,
    host: string,
    players: seq<string>,
    playerCount: nat,
    maxPlayers: nat)

  datatype Message =
    | Error(reason: Reason)
    | LobbyCreated(lobbyId: string)
    | LobbiesList(lobbies: seq<LobbyInfo>)
    | LobbyJoined(lobbyId: string, host: string, players: seq<string>)
    | PlayerJoinedLobby(lobbyId: string, player: string, players: seq<string>)
    | LobbyFull(lobbyId: string)
    | GameStarted(gameId: string, white: string, black: string, timeControl: int)
    | GameState(view: StateView)
    | GameAnnouncement(gameId: string, white: string, black: string)
    | Spectating(gameId: string, white: string, black: string)
    | NewSpectator(gameId: string, spectator: string)
    | GameOver(gameId: string, ending: Ending)
    | LobbyClosed
    | PlayerLeftLobby(player: string, players: seq<string>)
}
