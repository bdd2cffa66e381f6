# CHESS-in-python: the server's matchmaking and game sessions, and the client's board logic

This project models in Dafny the core of a two-program chess system written
in Python.

- **The server** (`chess_server.py`):
  - `ChessGame` holds one game's bookkeeping: the position, two integer
    clocks, the move list, the spectator set, the `is_active` flag, the
    per-recipient `your_turn` flag and the order in which terminal
    results are classified.
  - `GameLobby` is a two-seat waiting room.
  - The `ChessServerGUI` handlers move clients between the `lobbies` and
    `games` dictionaries and set `current_lobby`/`current_game`: create,
    list, join, start, move, resign, spectate, game over, leave game,
    leave lobby and disconnect.
  - The brace-scanning loop in `handle_game_client` cuts received text
    into JSON messages.
- **The client** (`chess_client.py`):
  - the material evaluator over the FEN placement field;
  - square names;
  - the move-history text;
  - the `m:ss` clock label;
  - the FEN row walk that places piece glyphs;
  - the `board_click` state machine: selection, targets, promotion and
    the legal-prefix gate before a move is sent.

The chess rules come from the `python-chess` library, which is not
modelled. It is the record `Rules.Engine`, a set of uninterpreted
functions:

- whether a UCI text parses, the legality test behind
  `move in board.legal_moves`, and the listed legal moves of a position
  (every listed move passes the test, but the test also accepts other
  spellings of a legal move, such as `e1h1` for castling `e1g1`);
- the successor position after a move;
- SAN text, FEN text and the starting layout;
- check, checkmate, stalemate, insufficient material, the fifty-move rule
  and repetition.

`Rules.Push` always hands the move to the other side.

Every `send` appends an `Envelope(recipient, message)` to the server's
`outbox`. A loop over a Python set (participants, connected clients) is
specified as one send per member in some order: equal multisets of
recipients. A loop over a list (lobby seats) is specified in seat order.

Modules, one per file:

- `strings.dfy`: `Strings`, the Python string operations used (`find`,
  slicing, `split`, `join`, decimal text).
- `rules.dfy`: `Rules`, the library as an oracle.
- `protocol.dfy`: `Protocol`, the server's messages and state view.
- `session.dfy`: `Session`, the `ChessClient`, `GameLobby` and
  `ChessGame` classes, with `Step` as the pure specification of
  `make_move`.
- `server.dfy`: `Server`, the handlers.
- `framing.dfy`: `Framing`, the brace-scanning loop.
- `client_text.dfy`: `ClientText`, the evaluation, square names, clock
  and history.
- `board_view.dfy`: `BoardView`, `board_click`.
- `drawing.dfy`: `Drawing`, `_draw_pieces`.

## Model

| member | source | states |
|---|---|---|
| Session.ChessClient.constructor | chess_server.py:195-204 | a new connection is in no lobby and no game |
| Session.GameLobby.constructor | chess_server.py:159-163 | a new lobby seats only its host, is waiting, and satisfies the seat/status invariant |
| Session.GameLobby.AddPlayer | chess_server.py:165-172 | succeeds iff fewer than two seats are taken; appends the player exactly then; status becomes full exactly when the count reaches two; a refused add changes nothing; the invariant is kept |
| Session.GameLobby.RemovePlayer | chess_server.py:174-180 | succeeds iff the player was seated; removes its first occurrence; status becomes waiting exactly on success; otherwise seats and status are unchanged |
| Session.GameLobby.IsFull | chess_server.py:182-184 | full iff the seat count is two, which in a valid lobby is iff status is full |
| Session.GameLobby.PlayerCount | chess_server.py:190-192 | the seat count, never above the capacity in a valid lobby |
| Session.RemoveFirst | chess_server.py:177 | `list.remove`: one element shorter when present, unchanged when absent, the head kept when it is not the removed value |
| Session.RemoveFirstAt | chess_server.py:177 | the result is the list with the first occurrence cut out |
| Session.RemoveFirstCount | chess_server.py:177 | the multiset of the result is the old multiset minus one copy |
| Session.Trunc | chess_server.py:42 | `int(x)` truncates toward zero, for positive and negative elapsed times alike |
| Session.Step | chess_server.py:30-60 | a malformed move and an illegal move leave the record unchanged, with their own errors; only the side to move is charged the truncated elapsed time; a charge to zero or below clamps to 0 and refuses the move without pushing it or extending the history; success iff the library's legality test accepts the move and time remains; success pushes the move, appends its SAN and stamps the time; clocks never go negative and never grow when time moves forward |
| Session.ChessGame.constructor | chess_server.py:17-28 | both clocks at the time control, the starting position, empty history, active, no spectators |
| Session.ListedMoveAccepted | chess_server.py:33-34 | every move the game state lists as legal (lines 70-72) passes `make_move`'s legality gate: it is accepted while time remains and refused only for running out of time |
| Session.ChessGame.MakeMove | chess_server.py:30-60 | the new record and the error are exactly `Step` of the old record; success iff no error |
| Session.ChessGame.GetState | chess_server.py:62-125 | `your_turn` holds iff the recipient is the player whose colour is to move (never for null or a spectator); turn, legal moves, clocks and history are the game's; the ending is `Classify` of the position; views for different recipients differ only in `your_turn` |
| Session.ChessGame.IsPlayer | chess_server.py:127-129 | true exactly for the occupant of either seat; as in Python, a `None` argument counts as a player while a seat is empty (the handlers at lines 997, 1040, 1076 and 1145 always pass a connected client) |
| Session.ChessGame.GetOpponent | chess_server.py:131-137 | null for a non-player; otherwise a player, and the other one when both seats are distinct and filled |
| Session.ChessGame.AddSpectator | chess_server.py:139-141 | the spectator set gains the client |
| Session.ChessGame.RemoveSpectator | chess_server.py:143-146 | the spectator set loses the client; removing a non-spectator changes nothing |
| Session.ChessGame.Participants | chess_server.py:148-156 | exactly the seated players plus the spectators |
| Rules.Start | chess_server.py:23 | the starting position has white to move |
| Rules.Push | chess_server.py:54 | the successor position has the other side to move |
| Rules.Classify | chess_server.py:83-101 | no ending iff no condition is reported; otherwise the reported condition of highest priority (checkmate, stalemate, insufficient material, fifty moves, repetition); only checkmate has a winner, the side not to move |
| Server.ChessServer.constructor | chess_server.py:279-282 | the server starts with empty client, lobby and game tables and nothing sent, which satisfies the lobby invariant `Valid` |
| Server.ToOthers | chess_server.py:885-893 | the seat-order sends of one message to every seat but one: only seated recipients, never the skipped one, and every other seat reached |
| Server.ChessServer.SendInOrder | chess_server.py:885-893 | the outbox grows by exactly `ToOthers` of the seat list |
| Server.ChessServer.SendToAll | chess_server.py:1056-1057 | the old outbox is kept and the same message goes once to each member of the set |
| Server.ChessServer.SendStates | chess_server.py:1014-1015 | each participant is sent the game's view once, with `your_turn` set only for the player to move |
| Server.ChessServer.HandleCreateLobby | chess_server.py:810-835 | a client already in a lobby gets an error and nothing changes; otherwise a lobby seating only the client is listed under the new id, the client's lobby is set and `lobby_created` is sent; the seat invariant is kept |
| Server.ChessServer.ListWaiting | chess_server.py:839-850 | the list holds each waiting lobby once, with its host, seat names and count, and nothing else |
| Server.ChessServer.HandleListLobbies | chess_server.py:837-858 | exactly one `lobbies_list` reply to the asker, naming exactly the waiting lobbies; under the server invariant a lobby is listed exactly when it has a free seat |
| Server.ChessServer.HandleJoinLobby | chess_server.py:860-913 | refuses, in order, a client already in a lobby, an unknown id and a full lobby, each with its error and no other change (seats and status of the named lobby kept); on success the client takes a seat and its lobby is set; it is sent `lobby_joined`, the other seats `player_joined_lobby` in seat order, then every seat `lobby_full` when full |
| Server.ChessServer.HandleStartGame | chess_server.py:915-985 | refuses, in order, an unknown lobby, a non-host and fewer than two seats, with nothing changed but the error (every seated client keeps its game and lobby links); on success seat 0 plays white and seat 1 black, both get the new game and lose their lobby, the lobby is delisted, and the sends are each player's `game_started` and first view, then the announcement to every other client |
| Server.ChessServer.OpenGame | chess_server.py:931-985 | the success path: the new game under the new id, the lobby removed, the players' links set, and the opening sends |
| Server.ChessServer.SeatPlayers | chess_server.py:931-945 | a fresh game with default clocks and the starting position is listed; both players point at it and at no lobby |
| Server.ChessServer.AnnounceStart | chess_server.py:950-982 | four sends to the two players in order, then one announcement per other client |
| Server.ChessServer.HandleGameMove | chess_server.py:987-1028 | refuses, in order, an unknown game, a non-player and a player not to move, each with one error and no change (every participant keeps its game link); otherwise the game's record follows `Step`; a refused move (illegal, malformed or out of time) sends one error and does not end the game; a move that does not end the game leaves it active and every participant linked to it, while one that ends it deactivates it and unlinks every participant |
| Server.ChessServer.PlayTurn | chess_server.py:1008-1028 | an accepted move sends every participant its view, then the game-over notice when the new position is terminal; a refused one sends one error; the game stays active unless the move ends it, and only then may participants' game links change (its frame names them only for an ending move) |
| Server.ChessServer.AnnounceMove | chess_server.py:1011-1025 | the views go first, then on a terminal position the game is deactivated and every participant is told and unlinked; on a non-terminal one the game stays active and no game link changes (its frame names the participants only for a terminal position) |
| Server.ChessServer.ResignationBy | chess_server.py:1043-1052 | a resignation's result is `resignation`, and the winner is the resigning player's opponent colour |
| Server.ChessServer.HandleResignation | chess_server.py:1030-1064 | refuses an unknown game and a non-player (every participant keeps its game link); otherwise every participant gets the resigned view, then the game-over notice, and the game ends |
| Server.ChessServer.Resign | chess_server.py:1054-1064 | two fan-outs to the same participants, then the game inactive and every participant unlinked |
| Server.ChessServer.HandleSpectateRequest | chess_server.py:1066-1103 | refuses an unknown game and a client already present; otherwise the client joins the spectators and points at the game, and is sent `spectating` and its view; each seated player is told of the new spectator |
| Server.ChessServer.HandleGameOver | chess_server.py:1105-1127 | the game becomes inactive, every participant gets the game-over notice once and loses its game link |
| Server.ChessServer.Dismiss | chess_server.py:1110-1120 | one notice per member and every member unlinked |
| Server.ChessServer.HandlePlayerLeaveGame | chess_server.py:1137-1176 | afterwards the client is in no game, and a client in no game causes nothing, so a second call is a no-op; a player leaving an active game ends it as a `disconnection` won by the opponent's colour; a player leaving a finished game frees its seat; a spectator is only removed from the spectators; in these last two cases every other participant keeps its game link |
| Server.ChessServer.HandlePlayerLeaveLobby | chess_server.py:1178-1214 | the host leaving tells every other seat in order, unlinks them and delists the lobby, whose seats and status stay as they were; a guest leaving frees its seat, every other seat keeps its lobby link and the remaining host is told the roster; the client ends in no lobby; an empty seat list (unreachable under the invariant) is where the code raises |
| Server.ChessServer.CloseLobby | chess_server.py:1184-1196 | the other seats are told `lobby_closed` in seat order and unlinked, the host's own link is left for the caller, and the lobby is delisted |
| Server.ChessServer.SendOff | chess_server.py:1186-1193 | the seat-order sends and unlinking of every seat but the host, whose link is untouched |
| Server.ChessServer.LeaveAsGuest | chess_server.py:1197-1206 | the guest's seat is removed, the host stays first, status is waiting, and the host is told who remains |
| Server.ChessServer.HandleClientDisconnect | chess_server.py:1216-1233 | leaves the game, then the lobby, then drops the client from the table; the client ends in no game; a player walking out of an active game leaves it inactive with seats and spectators kept, every participant unlinked and told once that it ended by `disconnection` won by the opponent's colour; a player leaving a finished game frees exactly its seat and a spectator is only dropped from the spectators, both sending nothing and touching no other participant's game link; a host walking out delists the lobby and unlinks every seat; a guest walking out frees its seat; the outbox gains the forfeit notices, then exactly what leaving the lobby sends |
| Server.ChessServer.Depart | chess_server.py:1218-1224 | the game step, when the client is in a game, then the lobby step, when it is in a lobby, with the same effects on the game's seats, spectators and activity, on participants' links, on lobbies and on the outbox |
| Server.ChessServer.LeaveGameStep | chess_server.py:1218-1220 | the client ends in no game; nothing is sent unless it forfeits an active game, which then ends with seats and spectators kept and every participant unlinked and told once; otherwise a seated player frees exactly its seat of the finished game and a spectator is only dropped from the spectators, with no other participant's link touched |
| Server.ChessServer.LeaveLobbyStep | chess_server.py:1222-1224 | the outbox grows by exactly what leaving the lobby sends; a host closes and delists the lobby, a guest frees its seat |
| Server.ChessServer.Forget | chess_server.py:1228-1229 | the client table loses the client's id |
| Framing.Frames | chess_server.py:559-589 | what is left holds no `}` and is never longer than the buffer; a buffer with no `}` is kept whole; every delivered chunk is one braced object the parser accepted |
| Framing.ProcessBuffer | chess_server.py:559-589 | the loop delivers exactly the chunks of `Frames` and leaves its rest |
| Framing.FramesConcat | chess_server.py:559-589 | messages sent back to back, each a braced object the parser accepts, are delivered one by one in order, and trailing text without a `}` stays buffered |
| Framing.SplitDelivery | chess_server.py:556-589 | a message split across two reads is buffered whole after the first and delivered once after the second |
| Framing.CutAtFirstClose | chess_server.py:561-576 | a `}` inside a message ends the cut there: the text up to it goes to the parser alone and the rest is scanned as new input |
| ClientText.PieceValue | chess_client.py:942-943 | a piece is worth between -9 and 9, kings 0 |
| ClientText.MaterialAppend | chess_client.py:948-951 | the balance of two texts is the sum of their balances |
| ClientText.MaterialOtherColour | chess_client.py:942-951 | swapping the colour of every piece negates the balance |
| ClientText.MaterialOfGaps | chess_client.py:948-951 | separators and digits weigh nothing |
| ClientText.EvalText | chess_client.py:953-958 | the label starts with `+` iff white is ahead and with `-` iff black is ahead |
| ClientText.EvalTextRoundTrip | chess_client.py:953-958 | the label reads back as the score it was made from |
| ClientText.EvaluatePosition | chess_client.py:939-958 | the label of the balance of the text before the first space |
| ClientText.StartIsEven | chess_client.py:939-958 | the starting placement evaluates to `Even` |
| ClientText.SquareName | chess_client.py:1160-1164 | a two-character name with rank `1`..`8` for a row on the board |
| ClientText.SquareNameRoundTrip | chess_client.py:1160-1164 | every board square's name reads back as that square |
| ClientText.ParseSquareRoundTrip | chess_client.py:1160-1164 | every name `a1`..`h8` is the name of the square it reads as, so the naming is a bijection |
| ClientText.TwoDigits | chess_client.py:754-755 | `:02d` gives two digits denoting the number |
| ClientText.ClockText | chess_client.py:754-755 | minutes, a colon, and a two-digit seconds field below 60 |
| ClientText.ClockRoundTrip | chess_client.py:754-755 | the label reads back as the seconds it was made from |
| ClientText.PairLine | chess_client.py:922-929 | a full pair of moves is the white entry `n. ` and the black entry with its newline |
| ClientText.HistoryLines | chess_client.py:922-929 | writing the entries one by one gives the numbered lines |
| ClientText.FormatMoveHistory | chess_client.py:917-931 | the loop's text is the history, which is the numbered lines: move `i` under number `i // 2 + 1` |
| BoardView.TargetsFrom | chess_client.py:1087-1091 | every target comes from a legal move starting at the square, and there are no more targets than legal moves |
| BoardView.TargetsComplete | chess_client.py:1087-1091 | every legal move from the square contributes its `move[2:4]` |
| BoardView.PromotionLetter | chess_client.py:1108-1121 | always one of `q`, `r`, `n`, `b`; a cancelled dialog gives `q` |
| BoardView.AnyExtends | chess_client.py:1083 | true iff some legal move starts with the prefix |
| BoardView.CollectTargets | chess_client.py:1087-1091 | the targets in legal-move order |
| BoardView.DetectPromotion | chess_client.py:1099-1106 | true iff some legal move starting with the move is longer than four characters |
| BoardView.ClickIgnored | chess_client.py:1051-1075 | nothing changes outside a game, out of turn, or for a click off the board |
| BoardView.ClickMirrored | chess_client.py:1069-1071 | black's click at (row, col) acts as white's click at (7-row, 7-col) |
| BoardView.ClickSends | chess_client.py:1094-1137 | a move is sent only from a selection, only when a legal move starts with it, and it is the selected square, the clicked square and on a promotion the chosen letter; the selection and targets are then cleared |
| BoardView.ClickKeepsSelectionValid | chess_client.py:1081-1156 | a click keeps a consistent selection consistent with the legal moves it is made against: a selected square starts one of those moves and its targets are exactly theirs; with nothing selected nothing is highlighted |
| BoardView.ClientBoard.constructor | chess_client.py:38 | a client starts with no game, no selection and nothing sent |
| BoardView.ClientBoard.BoardClick | chess_client.py:1049-1158 | the new selection, targets and sent moves are those of `Click` |
| BoardView.ClientBoard.SelectSquare | chess_client.py:1081-1093 | the first click selects a square with legal moves and lists its targets |
| BoardView.ClientBoard.CompleteMove | chess_client.py:1094-1158 | the second click sends, reselects or clears, as `Complete` says |
| Drawing.DrawPieces | chess_client.py:1014-1047 | the glyphs the loop places are `Drawn` of the FEN as written |
| Drawing.DrawRow | chess_client.py:1023-1047 | the inner loop over one row gives `RowGlyphs` |
| Drawing.RowBounds | chess_client.py:1023-1047 | a row's glyphs are pieces on that row, within the squares the row text spans, a digit skipping its value and any other character one square |
| Drawing.BoardBounds | chess_client.py:1019-1024 | every glyph is a piece on one of the rows given |
| Drawing.RowAppend | chess_client.py:1023-1047 | the walk over two texts continues at the column where the first ends |
| Drawing.DisplayRows | chess_client.py:1020 | black sees the rows reversed; either way they are the same rows |
| Drawing.DrawnRows | chess_client.py:1017 | a FEN without `/` is cut at the first space before splitting |
| Drawing.PlacementRows | chess_client.py:1017 | the rows of the placement field hold neither `/` nor a space |
| Drawing.FieldsDrawnOffBoard | chess_client.py:1017 | as written, a full FEN draws its castling letter at column 11 (white) or -4 (black), and a black side to move as a bishop, and its last row is wider than eight squares |
| Drawing.PlacedOnBoard | chess_client.py:1017-1047 | drawing from the placement field alone puts every glyph on the board when the placement has eight rows of eight squares, for either colour |
| Drawing.PlacementAlone | chess_client.py:1017 | the fields after the placement do not change the corrected drawing, which matches the code as written on a bare placement |

## Left out

- Sockets, `recv`/`sendall`, accept loops, reconnection, the chat channel
  and chat routing, authentication, the logging queue, signal handlers
  and the tkinter interface are not modelled: they are I/O and
  presentation.
- Threads are not modelled. Handlers are atomic steps, so races between
  connection threads are out of scope.
- The `threading.Timer` that deletes a finished game after 60 seconds
  (`remove_game`) and the inactivity sweep in `timer_loop` are not
  modelled: they are real-time behaviour.
- `time.time()` is the parameter `now`, a real number of seconds.
  `int(elapsed)` is modelled as truncation toward zero (`Session.Trunc`).
  A natural-number elapsed time would hide a clock that goes backwards;
  the real-valued one covers it.
- `uuid4` ids are handler inputs. A colliding id overwrites the old
  dictionary entry, as the dictionary would.
- `json.loads` is the predicate `parses` in `Framing`. It is assumed only
  to reject the empty text.
- `process_game_message` and the dispatch from message type to handler
  are not modelled. Each handler is modelled directly.
- Dictionary and set iteration order is not modelled. Fan-outs over sets
  are specified up to order, and the lobby list by its members.
- `Server.ChessServer.ListWaiting` states which lobbies appear, not their
  order.
- Pixel geometry in `board_click` and `_draw_pieces` is not modelled. A
  click arrives as the row and column the canvas division produced, and a
  glyph is recorded by display row and column.
- `BoardView.ClickKeepsSelectionValid` holds only against an unchanged
  legal-move list. The client does not clear `selected_square` and
  `valid_targets` when `_update_game_state` replaces `legal_moves`
  (chess_client.py:748) or when a game ends (chess_client.py:675-680), so
  a selection made in one position can outlive it and the next click then
  completes from the stale square. That path is not modelled beyond one
  click.
- `Server.ChessServer.AnnounceStart` fans out to the set of connected
  client objects, while the code loops over the `clients` items
  (chess_server.py:979-981). The two agree because each client is stored
  once under its own id. Registering clients is connection handling and is
  not modelled, so that invariant is not stated.
- `ClientText.SquareName` requires `97 + col` to be a code point Dafny's
  `char` can hold. `board_click` calls it only for columns 0..7.
- `BoardView.Lower` lowers ASCII letters only. No other character
  lower-cases to one of `q`, `r`, `n`, `b`, so the promotion test is
  unaffected.
- `Drawing` and `ClientText` treat only ASCII `0`..`9` as digits.
  `str.isdigit` also accepts other Unicode digits, on which `int(char)`
  raises. `board.fen()` never produces them.
- The promotion dialog's answer is the parameter `choice`.
- `_create_game_state_hash` and the duplicate-state filter in
  `_update_game_state` are not modelled.
- `Server.ChessServer.HandleSpectateRequest`: when a seat of the game is
  empty, the code raises while building the `spectating` message, after
  adding the spectator. The model stops at that point with nothing sent.

The model follows the code as written on these points:

- `make_move` checks legality before it charges the clock. A malformed or
  illegal move is refused without any charge.
- A move that exhausts the clock is refused with an error (`White ran out
  of time`). The clock is clamped to 0, but the game is not ended and no
  forfeit is announced.
- `handle_create_lobby` and `handle_join_lobby` refuse only a client that
  is already in a lobby. A client in a game may create or join one.
- `handle_game_move` and `handle_resignation` do not check `is_active`. A
  finished game still listed can accept a move or a resignation from a
  seated player until it is removed.

## Findings

| source | as written | input that shows it | evidently intended | confidence | as-written member | corrected member |
|---|---|---|---|---|---|---|
| chess_client.py:1017 | `_draw_pieces` splits the whole FEN at `/` whenever it holds one. The side to move, the castling rights and the counters stay glued to the last row and are walked as board squares. | The starting position `rnbqkbnr/pppppppp/8/8/8/8/PPPPPPPP/RNBQKBNR w KQkq - 0 1`, which `board.fen()` sends. Viewed from white, `K` of the castling rights is drawn as a king at column 11 of the bottom row. After `1. e4`, from `... b KQkq e3 0 1`, the `b` is also drawn as a bishop at column 9. | Only the placement field (`fen.split(' ')[0]`) is split into rows, so every glyph lands on the 8×8 board. The black-view half of `Drawing.FieldsDrawnOffBoard` (the castling letter at column -4) cannot happen as shipped: the client takes its colour only from `message.get('color', "")` (chess_client.py:628), and the server's `game_started` message (chess_server.py:956-962) carries no `color`, so the board is always drawn from white's side | high (not executed) | Drawing.FieldsDrawnOffBoard | Drawing.PlacedOnBoard |
