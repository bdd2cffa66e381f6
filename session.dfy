/** The server's per-connection client record, the two-seat lobby and the
    chess game session (`ChessClient`, `GameLobby` and `ChessGame` in
    chess_server.py). The sockets are gone: what a client is sent is logged
    by the server (module Server). */
module Session {
  import opened Strings
  import opened Rules
  import opened Protocol

  /** An authenticated game-channel connection. */
  class ChessClient {
    const clientId: string
    const username: string
    var currentGame: ChessGame?
    var currentLobby: GameLobby?

    constructor (clientId: string, username: string)
      ensures this.clientId == clientId && this.username == username
      ensures currentGame == null && currentLobby == null
    {
      this.clientId := clientId;
      this.username := username;
      currentGame := null;
      currentLobby := null;
    }
  }

  /** `list.index(x)`: the position of the first occurrence of `x`. */
  function IndexOf<T(==)>(s: seq<T>, x: T): (i: nat)
    requires x in s
    ensures i < |s| && s[i] == x && x !in s[..i]
  {
    if s[0] == x then 0
    else
      var j := IndexOf(s[1..], x);
      assert s[..j + 1] == [s[0]] + s[1..][..j];
      j + 1
  }

  /** `list.remove(x)`: drops the first occurrence of `x`, if any. */
  function RemoveFirst<T(==)>(s: seq<T>, x: T): (r: seq<T>)
    ensures |r| == if x in s then |s| - 1 else |s|
    ensures x !in s ==> r == s
    ensures |s| > 0 && s[0] != x ==> r[0] == s[0]
  {
    if |s| == 0 then []
    else if s[0] == x then s[1..]
    else
      assert x in s <==> x in s[1..];
      [s[0]] + RemoveFirst(s[1..], x)
  }

  /** What `list.remove` leaves: everything before the first occurrence of
      `x`, then everything after it. */
  lemma {:induction false} RemoveFirstAt<T>(s: seq<T>, x: T)
    requires x in s
    ensures RemoveFirst(s, x) == s[..IndexOf(s, x)] + s[IndexOf(s, x) + 1..]
  {
    if s[0] != x {
      assert x in s[1..];
      RemoveFirstAt(s[1..], x);
      var j := IndexOf(s[1..], x);
      assert s[..j + 1] == [s[0]] + s[1..][..j];
      assert s[j + 2..] == s[1..][j + 1..];
    }
  }

  /** What `list.remove` takes away: one occurrence of `x`, when there is one. */
  lemma {:induction false} RemoveFirstCount<T>(s: seq<T>, x: T)
    ensures multiset(RemoveFirst(s, x)) == multiset(s) - multiset{x}
  {
    if |s| > 0 {
      assert s == [s[0]] + s[1..];
      if s[0] != x {
        RemoveFirstCount(s[1..], x);
        assert RemoveFirst(s, x) == [s[0]] + RemoveFirst(s[1..], x);
      }
    }
  }

  datatype LobbyStatus = Waiting | Full

  /** A waiting room with at most two seats; the first seat is the host. */
  class GameLobby {
    const lobbyId: string
    var players: seq<ChessClient>
    var status: LobbyStatus
    const maxPlayers: nat := 2

    /** The status flag agrees with the seat count, which never exceeds the capacity. */
    ghost predicate Valid()
      reads this
    {
      |players| <= maxPlayers && (status == Full <==> |players| == maxPlayers)
    }

    constructor (lobbyId: string, host: ChessClient)
      ensures this.lobbyId == lobbyId && players == [host] && status == Waiting
      ensures Valid()
    {
      this.lobbyId := lobbyId;
      players := [host];
      status := Waiting;
    }

    /** `add_player`: takes a seat when one is free. */
    method AddPlayer(player: ChessClient) returns (added: bool)
      modifies this`players, this`status
      ensures added <==> |old(players)| < maxPlayers
      ensures players == if added then old(players) + [player] else old(players)
      ensures status == if added && |players| == maxPlayers then Full else old(status)
      ensures old(Valid()) ==> Valid()
    {
      if |players| < maxPlayers {
        players := players + [player];
        if |players| == maxPlayers {
          status := Full;
        }
        return true;
      }
      return false;
    }

    /** `remove_player`: frees the seat of `player` and reopens the lobby. */
    method RemovePlayer(player: ChessClient) returns (removed: bool)
      modifies this`players, this`status
      ensures removed <==> player in old(players)
      ensures players == RemoveFirst(old(players), player)
      ensures status == if removed then Waiting else old(status)
      ensures old(Valid()) ==> Valid()
    {
      if player in players {
        players := RemoveFirst(players, player);
        status := Waiting;
        return true;
      }
      return false;
    }

    /** `is_full`: for a valid lobby, the same answer as the status flag. */
    function IsFull(): (full: bool)
      reads this
      ensures full <==> |players| == maxPlayers
      ensures Valid() ==> (full <==> status == Full)
    {
      |players| == maxPlayers
    }

    function PlayerCount(): (n: nat)
      reads this
      ensures Valid() ==> n <= maxPlayers
    {
      |players|
    }
  }

  /** The part of a game that `make_move` reads and writes. */
  datatype GameRecord = GameRecord(
    board: Board,
    whiteTime: int,
    blackTime: int,
    lastMoveTime: real,
    moveHistory: seq<string>)

  function TimeOf(g: GameRecord, c: Color): int
  {
    if c == White then g.whiteTime else g.blackTime
  }

  /** `int(x)` on a float: truncation toward zero. */
  function Trunc(x: real): (n: int)
    ensures 0.0 <= x ==> n as real <= x < n as real + 1.0
    ensures x < 0.0 ==> n as real - 1.0 < x <= n as real
  {
    if x >= 0.0 then x.Floor else -((-x).Floor)
  }

  /** The remaining time of the side to move once it is charged for the
      whole seconds since the previous move, before any clamping. */
  function Charged(g: GameRecord, now: real): int
  {
    TimeOf(g, g.board.turn) - Trunc(now - g.lastMoveTime)
  }

  /** `make_move` on the game's bookkeeping: the new record and the error,
      if the move was refused. Legality is checked first, then the clock. */
  function Step(e: Engine, g: GameRecord, m: string, now: real): (r: (GameRecord, Option<MoveError>))
    // a move the library rejects changes nothing
    ensures !e.parsesUci(m) ==> r == (g, Some(Malformed))
    ensures e.parsesUci(m) && !IsLegal(e, g.board, m) ==> r == (g, Some(IllegalMove))
    // the opponent's clock is never touched
    ensures TimeOf(r.0, g.board.turn.Opposite()) == TimeOf(g, g.board.turn.Opposite())
    // the mover's clock is charged and clamped at zero once the move is legal
    ensures IsLegal(e, g.board, m) ==>
      TimeOf(r.0, g.board.turn) == if Charged(g, now) > 0 then Charged(g, now) else 0
    // a legal move is refused exactly when the clock ran out
    ensures r.1.None? <==> IsLegal(e, g.board, m) && Charged(g, now) > 0
    ensures r.1 == Some(OutOfTime(g.board.turn)) <==> IsLegal(e, g.board, m) && Charged(g, now) <= 0
    // an accepted move advances the position and appends exactly one entry
    ensures r.1.None? ==>
      r.0.board == Push(e, g.board, m) && r.0.board.turn == g.board.turn.Opposite() &&
      r.0.moveHistory == g.moveHistory + [e.san(g.board, m)] && r.0.lastMoveTime == now
    // a refused move leaves position, history and timestamp alone
    ensures r.1.Some? ==>
      r.0.board == g.board && r.0.moveHistory == g.moveHistory && r.0.lastMoveTime == g.lastMoveTime
    // clocks stay non-negative and, with time running forward, never increase
    ensures forall c :: TimeOf(g, c) >= 0 ==> TimeOf(r.0, c) >= 0
    ensures now >= g.lastMoveTime ==> forall c :: TimeOf(g, c) >= 0 ==> TimeOf(r.0, c) <= TimeOf(g, c)
  {
    if !e.parsesUci(m) then (g, Some(Malformed))
    else if !e.isLegal(g.board, m) then (g, Some(IllegalMove))
    else
      var left := Charged(g, now);
      var mover := g.board.turn;
      if left <= 0 then
        (if mover == White then g.(whiteTime := 0) else g.(blackTime := 0), Some(OutOfTime(mover)))
      else
        var g' := if mover == White then g.(whiteTime := left) else g.(blackTime := left);
        (g'.(board := Push(e, g.board, m),
             moveHistory := g.moveHistory + [e.san(g.board, m)],
             lastMoveTime := now),
         None)
  }

  /** A move the view lists (and that parses) is accepted while the mover
      has time left: the client's legal-move gate never offers a move the
      server then refuses as illegal. */
  lemma ListedMoveAccepted(e: Engine, g: GameRecord, m: string, now: real)
    requires ListsLegal(e) && e.parsesUci(m) && m in e.legalMoves(g.board)
    ensures Charged(g, now) > 0 ==> Step(e, g, m, now).1.None?
    ensures Charged(g, now) <= 0 ==> Step(e, g, m, now).1 == Some(OutOfTime(g.board.turn))
  {
  }

  /** One chess game between two clients, watched by a set of spectators. */
  class ChessGame {
    const gameId: string
    var whitePlayer: ChessClient?
    var blackPlayer: ChessClient?
    var whiteTime: int
    var blackTime: int
    var board: Board
    var lastMoveTime: real
    var moveHistory: seq<string>
    var isActive: bool
    var spectators: set<ChessClient>
    const timeControl: int

    constructor (gameId: string, white: ChessClient, black: ChessClient,
                 timeControl: int, start: Board, now: real)
      ensures this.gameId == gameId && whitePlayer == white && blackPlayer == black
      ensures Record() == GameRecord(start, timeControl, timeControl, now, [])
      ensures isActive && spectators == {} && this.timeControl == timeControl
    {
      this.gameId := gameId;
      whitePlayer := white;
      blackPlayer := black;
      whiteTime := timeControl;
      blackTime := timeControl;
      board := start;
      lastMoveTime := now;
      moveHistory := [];
      isActive := true;
      spectators := {};
      this.timeControl := timeControl;
    }

    function Record(): GameRecord
      reads this`board, this`whiteTime, this`blackTime, this`lastMoveTime, this`moveHistory
    {
      GameRecord(board, whiteTime, blackTime, lastMoveTime, moveHistory)
    }

    /** `make_move(move_uci)`, with `now` the `time.time()` reading it takes
        once the move is known to be legal. */
    method MakeMove(e: Engine, moveUci: string, now: real) returns (success: bool, error: Option<MoveError>)
      modifies this`board, this`whiteTime, this`blackTime, this`lastMoveTime, this`moveHistory
      ensures (Record(), error) == Step(e, old(Record()), moveUci, now)
      ensures success <==> error.None?
    {
      if !e.parsesUci(moveUci) {
        return false, Some(Malformed);
      }
      if !e.isLegal(board, moveUci) {
        return false, Some(IllegalMove);
      }
      var elapsed := Trunc(now - lastMoveTime);
      if board.turn == White {
        whiteTime := whiteTime - elapsed;
        if whiteTime <= 0 {
          whiteTime := 0;
          return false, Some(OutOfTime(White));
        }
      } else {
        blackTime := blackTime - elapsed;
        if blackTime <= 0 {
          blackTime := 0;
          return false, Some(OutOfTime(Black));
        }
      }
      var san := e.san(board, moveUci);
      board := Push(e, board, moveUci);
      moveHistory := moveHistory + [san];
      lastMoveTime := now;
      return true, None;
    }

    /** The player whose colour is the side to move. */
    function PlayerToMove(): ChessClient?
      reads this`board, this`whitePlayer, this`blackPlayer
    {
      if board.turn == White then whitePlayer else blackPlayer
    }

    /** `get_state(for_client)`: the view of the game sent to one
        recipient; only `yourTurn` depends on the recipient. */
    function GetState(e: Engine, forClient: ChessClient?): (v: StateView)
      reads this`board, this`whitePlayer, this`blackPlayer, this`whiteTime,
            this`blackTime, this`moveHistory
      ensures v.yourTurn <==> forClient != null && forClient == PlayerToMove()
      ensures v.yourTurn ==> IsPlayer(forClient)
      ensures v.turn == board.turn && v.legalMoves == e.legalMoves(board)
      ensures v.whiteTime == whiteTime && v.blackTime == blackTime && v.moveHistory == moveHistory
      ensures v.ending == Classify(e, board)
      ensures v.(yourTurn := false) == GetState(e, null)
    {
      var yourTurn :=
        if forClient == null then false
        else if board.turn == White && forClient == whitePlayer then true
        else if board.turn == Black && forClient == blackPlayer then true
        else false;
      StateView(
        gameId, e.fen(board), board.turn, yourTurn, e.isCheck(board), e.legalMoves(board),
        if whitePlayer != null then whitePlayer.username else "?",
        if blackPlayer != null then blackPlayer.username else "?",
        whiteTime, blackTime, moveHistory, Classify(e, board))
    }

    /** `is_player`: whether `c` occupies one of the two seats. As in the
        code, a `None` argument matches an empty seat. */
    predicate IsPlayer(c: ChessClient?): (b: bool)
      reads this`whitePlayer, this`blackPlayer
      ensures b <==> c in {whitePlayer, blackPlayer}
      ensures c == null ==> (b <==> whitePlayer == null || blackPlayer == null)
    {
      c == whitePlayer || c == blackPlayer
    }

    /** `get_opponent`: the other player, or null for a non-player. */
    function GetOpponent(c: ChessClient): (r: ChessClient?)
      reads this`whitePlayer, this`blackPlayer
      ensures !IsPlayer(c) ==> r == null
      ensures r != null ==> IsPlayer(r)
      ensures whitePlayer != null && blackPlayer != null && whitePlayer != blackPlayer && IsPlayer(c) ==>
        r != null && r != c && IsPlayer(r)
    {
      if c == whitePlayer then blackPlayer
      else if c == blackPlayer then whitePlayer
      else null
    }

    /** `add_spectator`. */
    method AddSpectator(c: ChessClient)
      modifies this`spectators
      ensures spectators == old(spectators) + {c}
    {
      spectators := spectators + {c};
    }

    /** `remove_spectator`: removing someone who is not watching is a no-op. */
    method RemoveSpectator(c: ChessClient)
      modifies this`spectators
      ensures spectators == old(spectators) - {c}
    {
      if c in spectators {
        spectators := spectators - {c};
      }
    }

    /** `get_all_participants`: the players still seated and every spectator. */
    function Participants(): (ps: set<ChessClient>)
      reads this`whitePlayer, this`blackPlayer, this`spectators
      ensures spectators <= ps
      ensures whitePlayer != null ==> whitePlayer in ps
      ensures blackPlayer != null ==> blackPlayer in ps
      ensures forall c :: c in ps ==> c in spectators || IsPlayer(c)
    {
      (if whitePlayer != null then {whitePlayer} else {}) +
      (if blackPlayer != null then {blackPlayer} else {}) +
      spectators
    }
  }
}
