/** The matchmaking and game-session handlers of `ChessServerGUI` in
    chess_server.py. The `clients`, `lobbies` and `games` dictionaries are
    maps; every `send` appends one envelope to `outbox`. */
module Server {
  import opened Strings
  import opened Rules
  import opened Protocol
  import opened Session

  /** `ChessGame(...)` is built with its default budget of 600 seconds. */
  const DefaultTimeControl: int := 600

  /** One `client.send(message)`. */
  datatype Envelope = Envelope(to: ChessClient, msg: Message)

  function Recipients(log: seq<Envelope>): (rs: seq<ChessClient>)
  {
    seq(|log|, i requires 0 <= i < |log| => log[i].to)
  }

  function LobbyIds(infos: seq<LobbyInfo>): (ids: seq<string>)
    ensures |ids| == |infos| && forall i :: 0 <= i < |infos| ==> ids[i] == infos[i].lobbyId
  {
    seq(|infos|, i requires 0 <= i < |infos| => infos[i].lobbyId)
  }

  /** The usernames of a seat list, in seat order. */
  function Names(players: seq<ChessClient>): (names: seq<string>)
    ensures |names| == |players| && forall i :: 0 <= i < |players| ==> names[i] == players[i].username
  {
    seq(|players|, i requires 0 <= i < |players| => players[i].username)
  }

  /** The sends of a loop over the seat list `players` that skips `except`. */
  function ToOthers(players: seq<ChessClient>, except: ChessClient?, msg: Message): (log: seq<Envelope>)
    ensures |log| <= |players|
    ensures forall i :: 0 <= i < |log| ==> log[i].msg == msg && log[i].to != except && log[i].to in players
    ensures forall p :: p in players && p != except ==> p in Recipients(log)
  {
    if |players| == 0 then []
    else
      var last := players[|players| - 1];
      var front := ToOthers(players[..|players| - 1], except, msg);
      var log := front + if last != except then [Envelope(last, msg)] else [];
      assert Recipients(log) == Recipients(front) + if last != except then [last] else [];
      assert players == players[..|players| - 1] + [last];
      log
  }

  /** `log` is one send to each member of `rs`, in some order: the order
      in which Python iterates over a set. */
  ghost predicate OncePerMember(log: seq<Envelope>, rs: set<ChessClient>)
  {
    multiset(Recipients(log)) == multiset(rs)
  }

  /** `log` is the same message sent once to each member of `rs`. */
  ghost predicate FannedOut(log: seq<Envelope>, rs: set<ChessClient>, msg: Message)
  {
    OncePerMember(log, rs) && forall i :: 0 <= i < |log| ==> log[i].msg == msg
  }

  /** `log` is each member of `rs` sent the view `base`, with `yourTurn`
      set for the recipient that is `mover` and cleared for the others. */
  ghost predicate StatesSent(log: seq<Envelope>, rs: set<ChessClient>, base: StateView, mover: ChessClient?)
  {
    OncePerMember(log, rs) &&
    forall i :: 0 <= i < |log| ==> log[i].msg == GameState(base.(yourTurn := log[i].to == mover))
  }

  lemma OncePerMemberLength(log: seq<Envelope>, rs: set<ChessClient>)
    requires OncePerMember(log, rs)
    ensures |log| == |rs|
  {
    assert |multiset(Recipients(log))| == |Recipients(log)|;
    assert |multiset(rs)| == |rs|;
  }

  /** Part way through a fan-out over `all`: `log` has served each member
      once and `rest` holds those still to serve. */
  ghost predicate Serving(log: seq<Envelope>, rest: set<ChessClient>, all: set<ChessClient>)
  {
    rest <= all && multiset(Recipients(log)) + multiset(rest) == multiset(all)
  }

  /** The step of every fan-out loop: one more member served. */
  lemma ServeOne(log: seq<Envelope>, env: Envelope, rest: set<ChessClient>, all: set<ChessClient>)
    requires env.to in rest && Serving(log, rest, all)
    ensures Serving(log + [env], rest - {env.to}, all)
  {
    assert Recipients(log + [env]) == Recipients(log) + [env.to];
    assert multiset(rest) == multiset(rest - {env.to}) + multiset{env.to};
  }

  /** A fan-out with nobody left to serve has served everyone once. */
  lemma ServedAll(log: seq<Envelope>, all: set<ChessClient>)
    requires Serving(log, {}, all)
    ensures OncePerMember(log, all) && |log| == |all|
  {
    OncePerMemberLength(log, all);
  }

  /** `after` extends `before` with the view `base` sent to each member of
      `rs` (`yourTurn` set for `mover` only) and, when the view reports the
      game over, the game-over notice to each of them. */
  ghost predicate MoveAnnounced(before: seq<Envelope>, after: seq<Envelope>, rs: set<ChessClient>,
                                base: StateView, mover: ChessClient?, gameId: string)
  {
    |after| >= |before| + |rs| && after[..|before|] == before &&
    StatesSent(after[|before|..|before| + |rs|], rs, base, mover) &&
    (base.ending.None? ==> |after| == |before| + |rs|) &&
    (base.ending.Some? ==> FannedOut(after[|before| + |rs|..], rs, GameOver(gameId, base.ending.value)))
  }

  lemma StatesThenOver(before: seq<Envelope>, mid: seq<Envelope>, after: seq<Envelope>, rs: set<ChessClient>,
                       base: StateView, mover: ChessClient?, gameId: string)
    requires |mid| == |before| + |rs| && mid[..|before|] == before
    requires StatesSent(mid[|before|..], rs, base, mover)
    requires base.ending.None? ==> after == mid
    requires base.ending.Some? ==>
      |after| >= |mid| && after[..|mid|] == mid && FannedOut(after[|mid|..], rs, GameOver(gameId, base.ending.value))
    ensures MoveAnnounced(before, after, rs, base, mover, gameId)
  {
    assert after[|before|..|before| + |rs|] == mid[|before|..];
  }

  /** `after` extends `before` with `first` sent to each member of `rs`,
      then `second` sent to each of them. */
  ghost predicate TwoFanOuts(before: seq<Envelope>, after: seq<Envelope>, rs: set<ChessClient>, first: Message, second: Message)
  {
    |after| == |before| + 2 * |rs| && after[..|before|] == before &&
    FannedOut(after[|before|..|before| + |rs|], rs, first) &&
    FannedOut(after[|before| + |rs|..], rs, second)
  }

  /** Two fan-outs to the same recipients, one after the other. */
  lemma FanOutsInSequence(before: seq<Envelope>, mid: seq<Envelope>, after: seq<Envelope>,
                          rs: set<ChessClient>, first: Message, second: Message)
    requires |mid| == |before| + |rs| && mid[..|before|] == before && FannedOut(mid[|before|..], rs, first)
    requires |after| >= |mid| && after[..|mid|] == mid && FannedOut(after[|mid|..], rs, second)
    ensures TwoFanOuts(before, after, rs, first, second)
  {
    OncePerMemberLength(after[|mid|..], rs);
    assert after[|before|..|before| + |rs|] == mid[|before|..];
  }

  /** `after` extends `before` with the opening of a game: `started` and
      white's first view to white, `started` and black's first view to
      black, then `announcement` once to each client in `others`. */
  ghost predicate StartAnnounced(before: seq<Envelope>, after: seq<Envelope>, white: ChessClient, black: ChessClient,
                                 started: Message, whiteView: StateView, blackView: StateView,
                                 others: set<ChessClient>, announcement: Message)
  {
    |after| == |before| + 4 + |others| &&
    after[..|before| + 4] == before + [
      Envelope(white, started), Envelope(white, GameState(whiteView)),
      Envelope(black, started), Envelope(black, GameState(blackView))] &&
    FannedOut(after[|before| + 4..], others, announcement)
  }

  /** Every client in `ps` is still linked to the game it was in. */
  twostate predicate KeptGames(ps: set<ChessClient>)
    reads ps
  {
    forall p :: p in ps ==> p.currentGame == old(p.currentGame)
  }

  /** `g` is over and no client in `ps` is linked to a game any more. */
  ghost predicate Forfeited(g: ChessGame, ps: set<ChessClient>)
    reads g`isActive, ps`currentGame
  {
    !g.isActive && forall p :: p in ps ==> p.currentGame == null
  }

  /** A game's seats, spectators, participants and activity as they stood
      at one moment. */
  datatype Seating = Seating(white: ChessClient?, black: ChessClient?, spectators: set<ChessClient>,
                             participants: set<ChessClient>, active: bool)

  function SeatingOf(g: ChessGame): (was: Seating)
    reads g`whitePlayer, g`blackPlayer, g`spectators, g`isActive
    ensures was.participants == g.Participants()
  {
    Seating(g.whitePlayer, g.blackPlayer, g.spectators, g.Participants(), g.isActive)
  }

  /** What `client` leaving game `g` did to it, the game having stood as
      `was` beforehand. A seated player walking out of a game in play ends
      it, with seats and spectators kept and every participant unlinked.
      A seated player leaving a finished game frees that seat. Anyone else
      is dropped from the spectators. */
  ghost predicate LeftGame(client: ChessClient, g: ChessGame, was: Seating)
    reads g`whitePlayer, g`blackPlayer, g`spectators, g`isActive, was.participants`currentGame
  {
    var seated := client == was.white || client == was.black;
    if seated && was.active then
      !g.isActive && g.whitePlayer == was.white && g.blackPlayer == was.black &&
      g.spectators == was.spectators && forall p :: p in was.participants ==> p.currentGame == null
    else if seated then
      !g.isActive && g.spectators == was.spectators &&
      g.whitePlayer == (if client == was.white then null else was.white) &&
      g.blackPlayer == (if client == was.white then was.black else null)
    else
      g.isActive == was.active && g.spectators == was.spectators - {client} &&
      g.whitePlayer == was.white && g.blackPlayer == was.black
  }

  class ChessServer {
    var clients: map<string, ChessClient>
    var lobbies: map<string, GameLobby>
    var games: map<string, ChessGame>
    var outbox: seq<Envelope>

    /** Every listed lobby has a host, no more seats than it allows, and a
        status that says `full` exactly when every seat is taken. */
    ghost predicate Valid()
      reads this`lobbies, lobbies.Values
    {
      forall id :: id in lobbies ==> 1 <= |lobbies[id].players| && lobbies[id].Valid()
    }

    constructor ()
      ensures Valid()
      ensures clients == map[] && lobbies == map[] && games == map[] && outbox == []
    {
      clients := map[];
      lobbies := map[];
      games := map[];
      outbox := [];
    }

    function LobbyAt(lobbyId: string): set<GameLobby>
      reads this
    {
      if lobbyId in lobbies then {lobbies[lobbyId]} else {}
    }

    method Send(to: ChessClient, msg: Message)
      modifies this`outbox
      ensures outbox == old(outbox) + [Envelope(to, msg)]
    {
      outbox := outbox + [Envelope(to, msg)];
    }

    /** `for player in players: if player != except: player.send(msg)`. */
    method SendInOrder(players: seq<ChessClient>, except: ChessClient?, msg: Message)
      modifies this`outbox
      ensures outbox == old(outbox) + ToOthers(players, except, msg)
    {
      var i := 0;
      while i < |players|
        invariant 0 <= i <= |players|
        invariant outbox == old(outbox) + ToOthers(players[..i], except, msg)
      {
        assert players[..i + 1][..i] == players[..i];
        if players[i] != except {
          Send(players[i], msg);
        }
        i := i + 1;
      }
      assert players[..|players|] == players;
    }

    /** `for p in rs: p.send(msg)` over a Python set. */
    method SendToAll(rs: set<ChessClient>, msg: Message)
      modifies this`outbox
      ensures |outbox| == |old(outbox)| + |rs| && outbox[..|old(outbox)|] == old(outbox)
      ensures FannedOut(outbox[|old(outbox)|..], rs, msg)
    {
      var rest := rs;
      ghost var sent: seq<Envelope> := [];
      while rest != {}
        invariant outbox == old(outbox) + sent
        invariant Serving(sent, rest, rs)
        invariant forall i :: 0 <= i < |sent| ==> sent[i].msg == msg
        decreases rest
      {
        var p :| p in rest;
        ServeOne(sent, Envelope(p, msg), rest, rs);
        Send(p, msg);
        sent := sent + [Envelope(p, msg)];
        rest := rest - {p};
      }
      ServedAll(sent, rs);
      assert outbox[|old(outbox)|..] == sent;
    }

    /** `for p in rs: p.send(game.get_state(p))`: each recipient gets the
        view with its own `your_turn`. */
    method SendStates(e: Engine, game: ChessGame, rs: set<ChessClient>)
      modifies this`outbox
      ensures |outbox| == |old(outbox)| + |rs| && outbox[..|old(outbox)|] == old(outbox)
      ensures StatesSent(outbox[|old(outbox)|..], rs, game.GetState(e, null), game.PlayerToMove())
    {
      var base, mover := game.GetState(e, null), game.PlayerToMove();
      var rest := rs;
      ghost var sent: seq<Envelope> := [];
      while rest != {}
        invariant outbox == old(outbox) + sent
        invariant Serving(sent, rest, rs)
        invariant forall i :: 0 <= i < |sent| ==> sent[i].msg == GameState(base.(yourTurn := sent[i].to == mover))
        decreases rest
      {
        var p :| p in rest;
        var view := game.GetState(e, p);
        assert view == base.(yourTurn := p == mover);
        ServeOne(sent, Envelope(p, GameState(view)), rest, rs);
        Send(p, GameState(view));
        sent := sent + [Envelope(p, GameState(view))];
        rest := rest - {p};
      }
      ServedAll(sent, rs);
      assert outbox[|old(outbox)|..] == sent;
    }

    /** `handle_game_over`: deactivates the game, tells every participant
        the result and clears their `current_game`. */
    method HandleGameOver(game: ChessGame, ending: Ending)
      modifies this`outbox, game`isActive, game.Participants()`currentGame
      ensures !game.isActive
      ensures |outbox| == |old(outbox)| + |old(game.Participants())|
      ensures outbox[..|old(outbox)|] == old(outbox)
      ensures FannedOut(outbox[|old(outbox)|..], old(game.Participants()), GameOver(game.gameId, ending))
      ensures forall p :: p in old(game.Participants()) ==> p.currentGame == null
    {
      game.isActive := false;
      Dismiss(game.Participants(), GameOver(game.gameId, ending));
    }

    /** Sends `msg` once to each client in `ps` and clears its game. */
    method Dismiss(ps: set<ChessClient>, msg: Message)
      modifies this`outbox, ps`currentGame
      ensures |outbox| == |old(outbox)| + |ps| && outbox[..|old(outbox)|] == old(outbox)
      ensures FannedOut(outbox[|old(outbox)|..], ps, msg)
      ensures forall p :: p in ps ==> p.currentGame == null
    {
      var rest := ps;
      ghost var sent: seq<Envelope> := [];
      while rest != {}
        invariant outbox == old(outbox) + sent
        invariant Serving(sent, rest, ps)
        invariant forall i :: 0 <= i < |sent| ==> sent[i].msg == msg
        invariant forall p :: p in ps - rest ==> p.currentGame == null
        decreases rest
      {
        var p :| p in rest;
        ServeOne(sent, Envelope(p, msg), rest, ps);
        Send(p, msg);
        sent := sent + [Envelope(p, msg)];
        p.currentGame := null;
        rest := rest - {p};
      }
      ServedAll(sent, ps);
      assert outbox[|old(outbox)|..] == sent;
    }

    /** `handle_create_lobby`: only an existing lobby membership is refused;
        a client in a game may still open a lobby. */
    method HandleCreateLobby(client: ChessClient, lobbyId: string)
      requires Valid()
      modifies this`lobbies, this`outbox, client`currentLobby
      ensures Valid()
      ensures old(client.currentLobby) != null ==>
        lobbies == old(lobbies) && client.currentLobby == old(client.currentLobby) &&
        outbox == old(outbox) + [Envelope(client, Error(AlreadyInLobby))]
      ensures old(client.currentLobby) == null ==>
        lobbyId in lobbies && fresh(lobbies[lobbyId]) &&
        lobbies == old(lobbies)[lobbyId := lobbies[lobbyId]] &&
        lobbies[lobbyId].lobbyId == lobbyId && lobbies[lobbyId].players == [client] &&
        lobbies[lobbyId].status == Waiting && client.currentLobby == lobbies[lobbyId] &&
        outbox == old(outbox) + [Envelope(client, LobbyCreated(lobbyId))]
    {
      if client.currentLobby != null {
        Send(client, Error(AlreadyInLobby));
        return;
      }
      var lobby := new GameLobby(lobbyId, client);
      lobbies := lobbies[lobbyId := lobby];
      client.currentLobby := lobby;
      Send(client, LobbyCreated(lobbyId));
    }

    /** One `lobbies_list` entry. */
    static function InfoOf(id: string, l: GameLobby): (info: LobbyInfo)
      reads l
      requires |l.players| >= 1
      ensures info.lobbyId == id && info.host == l.players[0].username
      ensures info.players == Names(l.players) && info.playerCount == |l.players|
    {
      LobbyInfo(id, l.players[0].username, Names(l.players), |l.players|, l.maxPlayers)
    }

    /** The lobby list `handle_list_lobbies` builds: each waiting lobby
        exactly once, and nothing else. */
    method ListWaiting() returns (infos: seq<LobbyInfo>)
      requires Valid()
      ensures forall i :: 0 <= i < |infos| ==>
        infos[i].lobbyId in lobbies && lobbies[infos[i].lobbyId].status == Waiting &&
        infos[i] == InfoOf(infos[i].lobbyId, lobbies[infos[i].lobbyId])
      ensures forall i, j :: 0 <= i < j < |infos| ==> infos[i].lobbyId != infos[j].lobbyId
      ensures forall id :: id in lobbies && lobbies[id].status == Waiting ==> id in LobbyIds(infos)
    {
      infos := [];
      var keys := lobbies.Keys;
      while keys != {}
        invariant keys <= lobbies.Keys
        invariant forall i :: 0 <= i < |infos| ==>
          infos[i].lobbyId in lobbies && infos[i].lobbyId !in keys && lobbies[infos[i].lobbyId].status == Waiting &&
          infos[i] == InfoOf(infos[i].lobbyId, lobbies[infos[i].lobbyId])
        invariant forall i, j :: 0 <= i < j < |infos| ==> infos[i].lobbyId != infos[j].lobbyId
        invariant forall id :: id in lobbies && id !in keys && lobbies[id].status == Waiting ==> id in LobbyIds(infos)
        decreases keys
      {
        var id :| id in keys;
        var lobby := lobbies[id];
        if lobby.status == Waiting {
          assert LobbyIds(infos + [InfoOf(id, lobby)]) == LobbyIds(infos) + [id];
          infos := infos + [InfoOf(id, lobby)];
        }
        keys := keys - {id};
      }
    }

    /** `handle_list_lobbies`: one `lobbies_list` reply naming each waiting
        lobby once. */
    method HandleListLobbies(client: ChessClient)
      requires Valid()
      modifies this`outbox
      ensures |outbox| == |old(outbox)| + 1 && outbox[..|old(outbox)|] == old(outbox)
      ensures outbox[|old(outbox)|].to == client && outbox[|old(outbox)|].msg.LobbiesList?
      ensures var ids := LobbyIds(outbox[|old(outbox)|].msg.lobbies);
        (forall id :: id in ids <==> id in lobbies && lobbies[id].status == Waiting) &&
        forall i, j :: 0 <= i < j < |ids| ==> ids[i] != ids[j]
      ensures forall id :: id in LobbyIds(outbox[|old(outbox)|].msg.lobbies) <==>
        id in lobbies && |lobbies[id].players| < lobbies[id].maxPlayers
    {
      var infos := ListWaiting();
      Send(client, LobbiesList(infos));
    }

    /** `handle_join_lobby`: refuses, in this order, a client already in a
        lobby, an unknown lobby and a full lobby, each without a change. */
    method HandleJoinLobby(client: ChessClient, lobbyId: string)
      requires Valid()
      modifies this`outbox, client`currentLobby, LobbyAt(lobbyId)`players, LobbyAt(lobbyId)`status
      ensures Valid()
      ensures lobbies == old(lobbies)
      ensures old(client.currentLobby) != null ==>
        outbox == old(outbox) + [Envelope(client, Error(AlreadyInLobby))] &&
        client.currentLobby == old(client.currentLobby) &&
        (lobbyId in lobbies ==>
          lobbies[lobbyId].players == old(lobbies[lobbyId].players) &&
          lobbies[lobbyId].status == old(lobbies[lobbyId].status))
      ensures old(client.currentLobby) == null && lobbyId !in lobbies ==>
        outbox == old(outbox) + [Envelope(client, Error(LobbyNotFound))] && client.currentLobby == null
      ensures old(client.currentLobby) == null && lobbyId in lobbies && old(lobbies[lobbyId].IsFull()) ==>
        outbox == old(outbox) + [Envelope(client, Error(LobbyIsFull))] && client.currentLobby == null &&
        lobbies[lobbyId].players == old(lobbies[lobbyId].players) &&
        lobbies[lobbyId].status == old(lobbies[lobbyId].status)
      ensures old(client.currentLobby) == null && lobbyId in lobbies && !old(lobbies[lobbyId].IsFull()) ==>
        var lobby := lobbies[lobbyId];
        var seats := old(lobby.players) + [client];
        lobby.players == seats && client.currentLobby == lobby &&
        lobby.status == (if |seats| == lobby.maxPlayers then Full else old(lobby.status)) &&
        outbox == old(outbox) + [Envelope(client, LobbyJoined(lobbyId, seats[0].username, Names(seats)))]
          + ToOthers(seats, client, PlayerJoinedLobby(lobbyId, client.username, Names(seats)))
          + (if |seats| == lobby.maxPlayers then ToOthers(seats, null, LobbyFull(lobbyId)) else [])
    {
      if client.currentLobby != null {
        Send(client, Error(AlreadyInLobby));
        return;
      }
      if lobbyId !in lobbies {
        Send(client, Error(LobbyNotFound));
        return;
      }
      var lobby := lobbies[lobbyId];
      assert lobby in lobbies.Values;
      if lobby.IsFull() {
        Send(client, Error(LobbyIsFull));
        return;
      }
      var added := lobby.AddPlayer(client);
      // A valid lobby that is not full has a free seat, so add_player's
      // refusal ("Failed to join lobby") cannot happen here.
      assert added;
      client.currentLobby := lobby;
      var seats := lobby.players;
      Send(client, LobbyJoined(lobbyId, seats[0].username, Names(seats)));
      SendInOrder(seats, client, PlayerJoinedLobby(lobbyId, client.username, Names(seats)));
      if lobby.IsFull() {
        SendInOrder(seats, null, LobbyFull(lobbyId));
      }
    }

    /** The sends that open a game: `game_started` and the first view to
        white, then to black, then `game_announcement` to every other
        connected client. */
    method AnnounceStart(white: ChessClient, black: ChessClient, started: Message,
                         whiteView: StateView, blackView: StateView, announcement: Message)
      modifies this`outbox
      ensures StartAnnounced(old(outbox), outbox, white, black, started, whiteView, blackView,
                             clients.Values - {white, black}, announcement)
    {
      Send(white, started);
      Send(white, GameState(whiteView));
      Send(black, started);
      Send(black, GameState(blackView));
      ghost var greeted := outbox;
      SendToAll(clients.Values - {white, black}, announcement);
      assert outbox[..|old(outbox)| + 4] == greeted[..|old(outbox)| + 4];
    }

    /** Builds the game for two seated clients, registers it under
        `gameId` and moves both clients from their lobby to it. */
    method SeatPlayers(e: Engine, white: ChessClient, black: ChessClient, gameId: string, now: real)
      returns (game: ChessGame)
      modifies this`games, white`currentGame, black`currentGame, white`currentLobby, black`currentLobby
      ensures fresh(game) && games == old(games)[gameId := game]
      ensures game.gameId == gameId && game.whitePlayer == white && game.blackPlayer == black
      ensures game.Record() == GameRecord(Start(e), DefaultTimeControl, DefaultTimeControl, now, [])
      ensures game.isActive && game.spectators == {} && game.timeControl == DefaultTimeControl
      ensures white.currentGame == game && black.currentGame == game
      ensures white.currentLobby == null && black.currentLobby == null
    {
      game := new ChessGame(gameId, white, black, DefaultTimeControl, Start(e), now);
      games := games[gameId := game];
      white.currentGame := game;
      black.currentGame := game;
      white.currentLobby := null;
      black.currentLobby := null;
    }

    /** The clients seated in the lobby listed under `lobbyId`. */
    function SeatedAt(lobbyId: string): set<ChessClient>
      reads this, lobbies.Values
    {
      if lobbyId in lobbies then set p | p in lobbies[lobbyId].players else {}
    }

    /** `handle_start_game`: the host of a lobby with two seats starts a
        game; seat 0 plays white, seat 1 black, and the lobby disappears. */
    method HandleStartGame(e: Engine, client: ChessClient, lobbyId: string, gameId: string, now: real)
      requires Valid()
      modifies this`outbox, this`lobbies, this`games, SeatedAt(lobbyId)`currentGame, SeatedAt(lobbyId)`currentLobby
      ensures Valid()
      ensures lobbyId !in old(lobbies) ==>
        lobbies == old(lobbies) && games == old(games) &&
        outbox == old(outbox) + [Envelope(client, Error(LobbyNotFound))]
      ensures lobbyId in old(lobbies) && old(lobbies)[lobbyId].players[0] != client ==>
        lobbies == old(lobbies) && games == old(games) &&
        outbox == old(outbox) + [Envelope(client, Error(NotHost))] &&
        forall p :: p in old(SeatedAt(lobbyId)) ==>
          p.currentGame == old(p.currentGame) && p.currentLobby == old(p.currentLobby)
      ensures lobbyId in old(lobbies) && old(lobbies)[lobbyId].players[0] == client &&
              |old(lobbies)[lobbyId].players| < 2 ==>
        lobbies == old(lobbies) && games == old(games) &&
        outbox == old(outbox) + [Envelope(client, Error(NeedTwoPlayers))] &&
        forall p :: p in old(SeatedAt(lobbyId)) ==>
          p.currentGame == old(p.currentGame) && p.currentLobby == old(p.currentLobby)
      ensures lobbyId in old(lobbies) && old(lobbies)[lobbyId].players[0] == client &&
              |old(lobbies)[lobbyId].players| >= 2 ==>
        var white := old(lobbies)[lobbyId].players[0];
        var black := old(lobbies)[lobbyId].players[1];
        gameId in games && fresh(games[gameId]) && games == old(games)[gameId := games[gameId]] &&
        lobbies == old(lobbies) - {lobbyId} &&
        var game := games[gameId];
        game.gameId == gameId && game.whitePlayer == white && game.blackPlayer == black &&
        game.Record() == GameRecord(Start(e), DefaultTimeControl, DefaultTimeControl, now, []) &&
        game.isActive && game.spectators == {} && game.timeControl == DefaultTimeControl &&
        white.currentGame == game && black.currentGame == game &&
        white.currentLobby == null && black.currentLobby == null &&
        StartAnnounced(old(outbox), outbox, white, black,
          GameStarted(gameId, white.username, black.username, DefaultTimeControl),
          game.GetState(e, white), game.GetState(e, black), clients.Values - {white, black},
          GameAnnouncement(gameId, white.username, black.username))
    {
      if lobbyId !in lobbies {
        Send(client, Error(LobbyNotFound));
        return;
      }
      var lobby := lobbies[lobbyId];
      assert lobby in lobbies.Values;
      if lobby.players[0] != client {
        Send(client, Error(NotHost));
        return;
      }
      if |lobby.players| < 2 {
        Send(client, Error(NeedTwoPlayers));
        return;
      }
      var white, black := lobby.players[0], lobby.players[1];
      assert white in SeatedAt(lobbyId) && black in SeatedAt(lobbyId);
      OpenGame(e, lobbyId, white, black, gameId, now);
    }

    /** The success path of `handle_start_game`: the two seated clients
        leave the lobby for a new game, which is announced. */
    method OpenGame(e: Engine, lobbyId: string, white: ChessClient, black: ChessClient, gameId: string, now: real)
      modifies this`outbox, this`lobbies, this`games, white`currentGame, black`currentGame,
               white`currentLobby, black`currentLobby
      ensures gameId in games && fresh(games[gameId]) && games == old(games)[gameId := games[gameId]]
      ensures lobbies == old(lobbies) - {lobbyId}
      ensures var game := games[gameId];
        game.gameId == gameId && game.whitePlayer == white && game.blackPlayer == black &&
        game.Record() == GameRecord(Start(e), DefaultTimeControl, DefaultTimeControl, now, []) &&
        game.isActive && game.spectators == {} && game.timeControl == DefaultTimeControl &&
        white.currentGame == game && black.currentGame == game &&
        white.currentLobby == null && black.currentLobby == null &&
        StartAnnounced(old(outbox), outbox, white, black,
          GameStarted(gameId, white.username, black.username, DefaultTimeControl),
          game.GetState(e, white), game.GetState(e, black), clients.Values - {white, black},
          GameAnnouncement(gameId, white.username, black.username))
    {
      lobbies := lobbies - {lobbyId};
      var game := SeatPlayers(e, white, black, gameId, now);
      AnnounceStart(white, black, GameStarted(gameId, white.username, black.username, DefaultTimeControl),
                    game.GetState(e, white), game.GetState(e, black),
                    GameAnnouncement(gameId, white.username, black.username));
    }

    function GamesAt(gameId: string): set<ChessGame>
      reads this
    {
      if gameId in games then {games[gameId]} else {}
    }

    /** The participants of the game listed under `gameId`. */
    function WatchersAt(gameId: string): set<ChessClient>
      reads this, games.Values
    {
      if gameId in games then games[gameId].Participants() else {}
    }

    /** How a game stands after `moveUci` is played on `g`: unfinished when
        the move is refused, otherwise the classification of the new
        position. */
    static function MoveEnding(e: Engine, g: GameRecord, moveUci: string, now: real): (ending: Option<Ending>)
      ensures Step(e, g, moveUci, now).1.Some? ==> ending.None?
      ensures Step(e, g, moveUci, now).1.None? ==> ending == Classify(e, Push(e, g.board, moveUci))
    {
      var step := Step(e, g, moveUci, now);
      if step.1.None? then Classify(e, step.0.board) else None
    }

    /** `handle_game_move`: refuses, in this order, an unknown game, a
        client that holds no seat and a move out of turn; otherwise plays
        the move, sends every participant its view, and ends the game when
        the new position is terminal. The game's `is_active` flag is not
        consulted. */
    method HandleGameMove(e: Engine, client: ChessClient, gameId: string, moveUci: string, now: real)
      modifies this`outbox, GamesAt(gameId)`board, GamesAt(gameId)`whiteTime, GamesAt(gameId)`blackTime
      modifies GamesAt(gameId)`lastMoveTime, GamesAt(gameId)`moveHistory, GamesAt(gameId)`isActive
      modifies WatchersAt(gameId)`currentGame
      ensures gameId !in games ==> outbox == old(outbox) + [Envelope(client, Error(GameNotFound))]
      ensures gameId in games && !old(games[gameId].IsPlayer(client)) ==>
        outbox == old(outbox) + [Envelope(client, Error(NotAPlayer))] &&
        games[gameId].Record() == old(games[gameId].Record()) && games[gameId].isActive == old(games[gameId].isActive) &&
        KeptGames(old(games[gameId].Participants()))
      ensures gameId in games && old(games[gameId].IsPlayer(client)) && client != old(games[gameId].PlayerToMove()) ==>
        outbox == old(outbox) + [Envelope(client, Error(NotYourTurn))] &&
        games[gameId].Record() == old(games[gameId].Record()) && games[gameId].isActive == old(games[gameId].isActive) &&
        KeptGames(old(games[gameId].Participants()))
      ensures gameId in games && client == old(games[gameId].PlayerToMove()) ==>
        var g := games[gameId];
        var step := Step(e, old(g.Record()), moveUci, now);
        var ending := MoveEnding(e, old(g.Record()), moveUci, now);
        g.Record() == step.0 &&
        (step.1.Some? ==> outbox == old(outbox) + [Envelope(client, Error(InvalidMove(step.1.value)))]) &&
        (step.1.None? ==>
          MoveAnnounced(old(outbox), outbox, old(g.Participants()), g.GetState(e, null), g.PlayerToMove(), g.gameId)) &&
        (ending.None? ==> g.isActive == old(g.isActive) && KeptGames(old(g.Participants()))) &&
        (ending.Some? ==> !g.isActive && forall p :: p in old(g.Participants()) ==> p.currentGame == null)
    {
      if gameId !in games {
        Send(client, Error(GameNotFound));
        return;
      }
      var game := games[gameId];
      if !game.IsPlayer(client) {
        Send(client, Error(NotAPlayer));
        return;
      }
      if client != game.PlayerToMove() {
        Send(client, Error(NotYourTurn));
        return;
      }
      PlayTurn(e, game, client, moveUci, now);
    }

    /** What `handle_game_move` does once the mover is known to be on turn:
        a refused move is reported to the mover; an accepted one is
        announced. */
    method PlayTurn(e: Engine, game: ChessGame, client: ChessClient, moveUci: string, now: real)
      modifies this`outbox, game`board, game`whiteTime, game`blackTime, game`lastMoveTime, game`moveHistory
      modifies game`isActive, Unlinked(MoveEnding(e, game.Record(), moveUci, now), game.Participants())`currentGame
      ensures game.Record() == Step(e, old(game.Record()), moveUci, now).0
      ensures var error := Step(e, old(game.Record()), moveUci, now).1;
        error.Some? ==> outbox == old(outbox) + [Envelope(client, Error(InvalidMove(error.value)))]
      ensures Step(e, old(game.Record()), moveUci, now).1.None? ==>
        MoveAnnounced(old(outbox), outbox, old(game.Participants()), game.GetState(e, null),
                      game.PlayerToMove(), game.gameId)
      // the game stays active unless the move ends it; the frame above lets
      // only an ending move clear the participants' game
      ensures MoveEnding(e, old(game.Record()), moveUci, now).None? ==>
        game.isActive == old(game.isActive)
      ensures MoveEnding(e, old(game.Record()), moveUci, now).Some? ==>
        !game.isActive && forall p :: p in old(game.Participants()) ==> p.currentGame == null
    {
      var success, error := game.MakeMove(e, moveUci, now);
      if success {
        AnnounceMove(e, game);
      } else {
        Send(client, Error(InvalidMove(error.value)));
      }
    }

    /** The clients whose game an announcement may clear: everyone in `ps`
        once the game has ended, nobody while it goes on. */
    static function Unlinked(ending: Option<Ending>, ps: set<ChessClient>): (out: set<ChessClient>)
      ensures out <= ps
      ensures ending.None? ==> out == {}
    {
      if ending.Some? then ps else {}
    }

    /** The sends after an accepted move: each participant's view, then,
        when the new position is terminal, the game-over notice. Only a
        terminal position clears the participants' game. */
    method AnnounceMove(e: Engine, game: ChessGame)
      modifies this`outbox, game`isActive, Unlinked(game.GetState(e, null).ending, game.Participants())`currentGame
      ensures game.GetState(e, null) == old(game.GetState(e, null)) && game.PlayerToMove() == old(game.PlayerToMove())
      ensures MoveAnnounced(old(outbox), outbox, old(game.Participants()), old(game.GetState(e, null)),
                            old(game.PlayerToMove()), game.gameId)
      ensures old(game.GetState(e, null)).ending.None? ==> game.isActive == old(game.isActive)
      ensures old(game.GetState(e, null)).ending.Some? ==>
        !game.isActive && forall p :: p in old(game.Participants()) ==> p.currentGame == null
    {
      var view := game.GetState(e, null);
      var ps := game.Participants();
      SendStates(e, game, ps);
      ghost var announced := outbox;
      if view.ending.Some? {
        HandleGameOver(game, view.ending.value);
      }
      StatesThenOver(old(outbox), announced, outbox, ps, view, game.PlayerToMove(), game.gameId);
    }

    /** `handle_resignation`: a seated client resigns; its opponent's colour
        wins. Every participant gets the final view and then the game-over
        notice. */
    method HandleResignation(e: Engine, client: ChessClient, gameId: string)
      modifies this`outbox, GamesAt(gameId)`isActive, WatchersAt(gameId)`currentGame
      ensures gameId !in games ==> outbox == old(outbox) + [Envelope(client, Error(GameNotFound))]
      ensures gameId in games && !old(games[gameId].IsPlayer(client)) ==>
        outbox == old(outbox) + [Envelope(client, Error(NotAPlayer))] &&
        games[gameId].isActive == old(games[gameId].isActive) &&
        KeptGames(old(games[gameId].Participants()))
      ensures gameId in games && old(games[gameId].IsPlayer(client)) ==>
        var g := games[gameId];
        var ending := old(ResignationBy(g, client));
        !g.isActive && (forall p :: p in old(g.Participants()) ==> p.currentGame == null) &&
        TwoFanOuts(old(outbox), outbox, old(g.Participants()),
          GameState(old(g.GetState(e, null)).(ending := Some(ending))), GameOver(g.gameId, ending))
    {
      if gameId !in games {
        Send(client, Error(GameNotFound));
        return;
      }
      var game := games[gameId];
      if !game.IsPlayer(client) {
        Send(client, Error(NotAPlayer));
        return;
      }
      Resign(e, game, client);
    }

    /** The result a resignation by `client` gives: the other colour wins. */
    static function ResignationBy(game: ChessGame, client: ChessClient): (ending: Ending)
      reads game`whitePlayer
      ensures ending.result == Resignation
      ensures ending.winner == Some(if client == game.whitePlayer then Black else White)
    {
      Ending(Resignation, Some(if client == game.whitePlayer then Black else White))
    }

    method Resign(e: Engine, game: ChessGame, client: ChessClient)
      modifies this`outbox, game`isActive, game.Participants()`currentGame
      ensures TwoFanOuts(old(outbox), outbox, old(game.Participants()),
        GameState(old(game.GetState(e, null)).(ending := Some(old(ResignationBy(game, client))))),
        GameOver(game.gameId, old(ResignationBy(game, client))))
      ensures !game.isActive && forall p :: p in old(game.Participants()) ==> p.currentGame == null
    {
      var ending := ResignationBy(game, client);
      var view := game.GetState(e, null).(ending := Some(ending));
      var ps := game.Participants();
      SendToAll(ps, GameState(view));
      ghost var told := outbox;
      HandleGameOver(game, ending);
      FanOutsInSequence(old(outbox), told, outbox, ps, GameState(view), GameOver(game.gameId, ending));
    }

    /** `handle_spectate_request`. When a seat of the game is empty, reading
        its username raises in the source after the client was already
        added: the model stops at that point, with nothing sent. */
    method HandleSpectateRequest(e: Engine, client: ChessClient, gameId: string)
      modifies this`outbox, client`currentGame, GamesAt(gameId)`spectators
      ensures gameId !in games ==>
        outbox == old(outbox) + [Envelope(client, Error(GameNotFound))] && client.currentGame == old(client.currentGame)
      ensures gameId in games && old(games[gameId].IsPlayer(client) || client in games[gameId].spectators) ==>
        outbox == old(outbox) + [Envelope(client, Error(AlreadyInGame))] &&
        client.currentGame == old(client.currentGame) &&
        games[gameId].spectators == old(games[gameId].spectators)
      ensures gameId in games && !old(games[gameId].IsPlayer(client) || client in games[gameId].spectators) ==>
        var g := games[gameId];
        g.spectators == old(g.spectators) + {client} && client.currentGame == g &&
        (g.whitePlayer == null || g.blackPlayer == null ==> outbox == old(outbox)) &&
        (g.whitePlayer != null && g.blackPlayer != null ==>
          outbox == old(outbox) + [
            Envelope(client, Spectating(gameId, g.whitePlayer.username, g.blackPlayer.username)),
            Envelope(client, GameState(g.GetState(e, client))),
            Envelope(g.whitePlayer, NewSpectator(gameId, client.username)),
            Envelope(g.blackPlayer, NewSpectator(gameId, client.username))])
    {
      if gameId !in games {
        Send(client, Error(GameNotFound));
        return;
      }
      var game := games[gameId];
      if game.IsPlayer(client) || client in game.spectators {
        Send(client, Error(AlreadyInGame));
        return;
      }
      game.AddSpectator(client);
      client.currentGame := game;
      if game.whitePlayer == null || game.blackPlayer == null {
        return;
      }
      Send(client, Spectating(gameId, game.whitePlayer.username, game.blackPlayer.username));
      Send(client, GameState(game.GetState(e, client)));
      Send(game.whitePlayer, NewSpectator(gameId, client.username));
      Send(game.blackPlayer, NewSpectator(gameId, client.username));
    }

    /** The game `c` is in, as a frame. */
    static function GameOf(c: ChessClient): set<ChessGame>
      reads c`currentGame
    {
      if c.currentGame == null then {} else {c.currentGame}
    }

    /** The participants of the game `c` is in. */
    static function CompanionsOf(c: ChessClient): set<ChessClient>
      reads c`currentGame, GameOf(c)`whitePlayer, GameOf(c)`blackPlayer, GameOf(c)`spectators
    {
      if c.currentGame == null then {} else c.currentGame.Participants()
    }

    /** Whether `c` leaving its game forfeits it: `c` holds a seat in a
        game still in play. */
    static ghost predicate Forfeits(c: ChessClient)
      reads c`currentGame, GameOf(c)`whitePlayer, GameOf(c)`blackPlayer, GameOf(c)`isActive
    {
      c.currentGame != null && c.currentGame.IsPlayer(c) && c.currentGame.isActive
    }

    /** Whose game link leaving a game may clear besides the leaver's own:
        every participant when `c` holds a seat in a game in play, which
        it then forfeits; nobody otherwise. */
    static ghost function ForfeitParties(c: ChessClient): (ps: set<ChessClient>)
      reads c`currentGame, GameOf(c)`whitePlayer, GameOf(c)`blackPlayer, GameOf(c)`spectators
      reads GameOf(c)`isActive
      ensures ps <= CompanionsOf(c)
    {
      if Forfeits(c) then c.currentGame.Participants() else {}
    }

    /** `handle_player_leave_game`: a seated client leaving an active game
        loses it by disconnection; leaving a finished game empties its
        seat; a spectator is dropped. A client in no game is left alone, so
        leaving twice is the same as leaving once. */
    method HandlePlayerLeaveGame(client: ChessClient)
      modifies this`outbox, client`currentGame
      modifies GameOf(client)`whitePlayer, GameOf(client)`blackPlayer, GameOf(client)`spectators
      modifies GameOf(client)`isActive, ForfeitParties(client)`currentGame
      ensures client.currentGame == null
      ensures old(client.currentGame) == null ==> outbox == old(outbox)
      ensures old(client.currentGame) != null && old(client.currentGame.IsPlayer(client)) && old(client.currentGame.isActive) ==>
        var g := old(client.currentGame);
        var ps := old(g.Participants());
        var ending := Ending(Disconnection, Some(if client == old(g.whitePlayer) then Black else White));
        !g.isActive && (forall p :: p in ps ==> p.currentGame == null) &&
        |outbox| == |old(outbox)| + |ps| && outbox[..|old(outbox)|] == old(outbox) &&
        FannedOut(outbox[|old(outbox)|..], ps, GameOver(g.gameId, ending)) &&
        g.whitePlayer == old(g.whitePlayer) && g.blackPlayer == old(g.blackPlayer) &&
        g.spectators == old(g.spectators)
      ensures old(client.currentGame) != null && old(client.currentGame.IsPlayer(client)) && !old(client.currentGame.isActive) ==>
        var g := old(client.currentGame);
        outbox == old(outbox) && !g.isActive && g.spectators == old(g.spectators) &&
        g.whitePlayer == (if client == old(g.whitePlayer) then null else old(g.whitePlayer)) &&
        g.blackPlayer == (if client == old(g.whitePlayer) then old(g.blackPlayer) else null) &&
        forall p :: p in old(CompanionsOf(client)) && p != client ==> p.currentGame == old(p.currentGame)
      ensures old(client.currentGame) != null && !old(client.currentGame.IsPlayer(client)) ==>
        var g := old(client.currentGame);
        outbox == old(outbox) && g.isActive == old(g.isActive) &&
        g.spectators == old(g.spectators) - {client} &&
        g.whitePlayer == old(g.whitePlayer) && g.blackPlayer == old(g.blackPlayer) &&
        forall p :: p in old(CompanionsOf(client)) && p != client ==> p.currentGame == old(p.currentGame)
    {
      if client.currentGame == null {
        return;
      }
      var game := client.currentGame;
      if game.IsPlayer(client) {
        if game.isActive {
          var winner := if client == game.whitePlayer then Black else White;
          HandleGameOver(game, Ending(Disconnection, Some(winner)));
        } else if client == game.whitePlayer {
          game.whitePlayer := null;
        } else if client == game.blackPlayer {
          game.blackPlayer := null;
        }
      } else {
        game.RemoveSpectator(client);
      }
      client.currentGame := null;
    }

    static function LobbyOf(c: ChessClient): set<GameLobby>
      reads c`currentLobby
    {
      if c.currentLobby == null then {} else {c.currentLobby}
    }

    /** The clients seated with `c` in its lobby. */
    static function LobbyMatesOf(c: ChessClient): set<ChessClient>
      reads c`currentLobby, LobbyOf(c)`players
    {
      if c.currentLobby == null then {} else set p | p in c.currentLobby.players
    }

    /** `handle_player_leave_lobby`. When the host leaves, every other seat
        is told the lobby closed and the lobby is delisted; when a guest
        leaves, the host is told who is left. `completed` is false only
        when the lobby has no seats at all, where the source's
        `lobby.players[0]` raises before anything changes. */
    method HandlePlayerLeaveLobby(client: ChessClient) returns (completed: bool)
      requires Valid()
      modifies this`outbox, this`lobbies, client`currentLobby
      modifies LobbyOf(client)`players, LobbyOf(client)`status, LobbyMatesOf(client)`currentLobby
      ensures Valid()
      ensures completed <==> old(client.currentLobby) == null || |old(client.currentLobby.players)| > 0
      ensures completed ==> client.currentLobby == null
      ensures !completed || old(client.currentLobby) == null ==>
        outbox == old(outbox) && lobbies == old(lobbies)
      ensures !completed ==> client.currentLobby == old(client.currentLobby)
      ensures old(client.currentLobby) != null && |old(client.currentLobby.players)| > 0 &&
              old(client.currentLobby.players[0]) == client ==>
        var l := old(client.currentLobby);
        var seats := old(l.players);
        l.players == seats && l.status == old(l.status) && lobbies == old(lobbies) - {l.lobbyId} &&
        outbox == old(outbox) + ToOthers(seats, client, LobbyClosed) &&
        forall p :: p in seats ==> p.currentLobby == null
      ensures old(client.currentLobby) != null && |old(client.currentLobby.players)| > 0 &&
              old(client.currentLobby.players[0]) != client ==>
        var l := old(client.currentLobby);
        var seats := old(l.players);
        l.players == RemoveFirst(seats, client) && |l.players| > 0 && l.players[0] == seats[0] &&
        l.status == (if client in seats then Waiting else old(l.status)) &&
        lobbies == old(lobbies) &&
        outbox == old(outbox) + [Envelope(seats[0], PlayerLeftLobby(client.username, Names(l.players)))] &&
        forall p :: p in seats && p != client ==> p.currentLobby == old(p.currentLobby)
    {
      if client.currentLobby == null {
        return true;
      }
      var lobby := client.currentLobby;
      if |lobby.players| == 0 {
        return false;
      }
      if lobby.players[0] == client {
        CloseLobby(client, lobby);
      } else {
        LeaveAsGuest(client, lobby);
      }
      client.currentLobby := null;
      return true;
    }

    /** The host left: every other seat is told and unlinked, and the lobby
        is delisted. */
    method CloseLobby(client: ChessClient, lobby: GameLobby)
      requires Valid()
      modifies this`outbox, this`lobbies, (set p | p in lobby.players)`currentLobby
      ensures Valid()
      ensures lobbies == old(lobbies) - {lobby.lobbyId}
      ensures outbox == old(outbox) + ToOthers(lobby.players, client, LobbyClosed)
      ensures forall p :: p in lobby.players && p != client ==> p.currentLobby == null
      ensures client.currentLobby == old(client.currentLobby)
    {
      SendOff(lobby.players, client);
      if lobby.lobbyId in lobbies {
        lobbies := lobbies - {lobby.lobbyId};
      }
    }

    /** The host's departure as seen by the other seats: each is told the
        lobby closed and loses its lobby. */
    method SendOff(seats: seq<ChessClient>, host: ChessClient)
      modifies this`outbox, (set p | p in seats)`currentLobby
      ensures outbox == old(outbox) + ToOthers(seats, host, LobbyClosed)
      ensures forall p :: p in seats && p != host ==> p.currentLobby == null
      ensures host.currentLobby == old(host.currentLobby)
    {
      var i := 0;
      while i < |seats|
        invariant 0 <= i <= |seats|
        invariant outbox == old(outbox) + ToOthers(seats[..i], host, LobbyClosed)
        invariant forall j :: 0 <= j < i && seats[j] != host ==> seats[j].currentLobby == null
        invariant host.currentLobby == old(host.currentLobby)
      {
        assert seats[..i + 1][..i] == seats[..i];
        if seats[i] != host {
          Send(seats[i], LobbyClosed);
          seats[i].currentLobby := null;
        }
        i := i + 1;
      }
      assert seats[..|seats|] == seats;
    }

    /** A guest left: its seat is freed and the host is told who remains. */
    method LeaveAsGuest(client: ChessClient, lobby: GameLobby)
      requires Valid()
      requires |lobby.players| > 0 && lobby.players[0] != client
      modifies this`outbox, lobby`players, lobby`status
      ensures Valid()
      ensures lobby.players == RemoveFirst(old(lobby.players), client)
      ensures |lobby.players| > 0 && lobby.players[0] == old(lobby.players[0])
      ensures lobby.status == if client in old(lobby.players) then Waiting else old(lobby.status)
      ensures outbox == old(outbox) + [Envelope(lobby.players[0], PlayerLeftLobby(client.username, Names(lobby.players)))]
    {
      var removed := lobby.RemovePlayer(client);
      if |lobby.players| > 0 {
        Send(lobby.players[0], PlayerLeftLobby(client.username, Names(lobby.players)));
      }
    }

    /** What `c` leaving its lobby sends: a host's departure tells every
        other seat the lobby closed, a guest's tells the host who is left. */
    static ghost function LobbyLeaveSends(c: ChessClient): seq<Envelope>
      reads c`currentLobby, LobbyOf(c)`players
    {
      if c.currentLobby == null || |c.currentLobby.players| == 0 then []
      else if c.currentLobby.players[0] == c then ToOthers(c.currentLobby.players, c, LobbyClosed)
      else
        var seats := c.currentLobby.players;
        [Envelope(seats[0], PlayerLeftLobby(c.username, Names(RemoveFirst(seats, c))))]
    }

    /** `handle_client_disconnect`: leave the game, then the lobby, then
        the client table. A player walking out of an active game forfeits
        it to the opponent, whose side is named the winner; a host walking
        out closes the lobby. The outbox gains the forfeit notices `sent`,
        then what leaving the lobby sends. */
    method HandleClientDisconnect(client: ChessClient) returns (ghost sent: seq<Envelope>)
      requires Valid()
      modifies this`outbox, this`lobbies, this`clients, client`currentGame, client`currentLobby
      modifies GameOf(client)`whitePlayer, GameOf(client)`blackPlayer, GameOf(client)`spectators
      modifies GameOf(client)`isActive, ForfeitParties(client)`currentGame
      modifies LobbyOf(client)`players, LobbyOf(client)`status, LobbyMatesOf(client)`currentLobby
      ensures Valid()
      ensures client.currentGame == null
      ensures outbox == old(outbox) + sent + old(LobbyLeaveSends(client))
      ensures !old(Forfeits(client)) ==> sent == []
      ensures old(Forfeits(client)) ==>
        var g := old(client.currentGame);
        var ps := old(g.Participants());
        var ending := Ending(Disconnection, Some(if client == old(g.whitePlayer) then Black else White));
        |sent| == |ps| && FannedOut(sent, ps, GameOver(g.gameId, ending))
      ensures old(client.currentGame) != null ==>
        LeftGame(client, old(client.currentGame), old(SeatingOf(client.currentGame)))
      ensures old(client.currentLobby) != null && |old(client.currentLobby.players)| > 0 &&
              old(client.currentLobby.players[0]) == client ==>
        var l := old(client.currentLobby);
        lobbies == old(lobbies) - {l.lobbyId} && forall p :: p in old(l.players) ==> p.currentLobby == null
      ensures old(client.currentLobby) != null && |old(client.currentLobby.players)| > 0 &&
              old(client.currentLobby.players[0]) != client ==>
        var l := old(client.currentLobby);
        l.players == RemoveFirst(old(l.players), client) && lobbies == old(lobbies)
      ensures old(client.currentLobby) == null || |old(client.currentLobby.players)| > 0 ==>
        client.currentLobby == null && clients == old(clients) - {client.clientId}
    {
      var completed;
      completed, sent := Depart(client);
      if completed {
        Forget(client);
      }
    }

    /** The game and lobby steps of a disconnect. `completed` is false only
        where leaving the lobby stopped short. */
    method Depart(client: ChessClient) returns (completed: bool, ghost sent: seq<Envelope>)
      requires Valid()
      modifies this`outbox, this`lobbies, client`currentGame, client`currentLobby
      modifies GameOf(client)`whitePlayer, GameOf(client)`blackPlayer, GameOf(client)`spectators
      modifies GameOf(client)`isActive, ForfeitParties(client)`currentGame
      modifies LobbyOf(client)`players, LobbyOf(client)`status, LobbyMatesOf(client)`currentLobby
      ensures Valid()
      ensures client.currentGame == null
      ensures outbox == old(outbox) + sent + old(LobbyLeaveSends(client))
      ensures !old(Forfeits(client)) ==> sent == []
      ensures old(Forfeits(client)) ==>
        var g := old(client.currentGame);
        var ps := old(g.Participants());
        var ending := Ending(Disconnection, Some(if client == old(g.whitePlayer) then Black else White));
        |sent| == |ps| && FannedOut(sent, ps, GameOver(g.gameId, ending))
      ensures old(client.currentGame) != null ==>
        LeftGame(client, old(client.currentGame), old(SeatingOf(client.currentGame)))
      ensures old(client.currentLobby) != null && |old(client.currentLobby.players)| > 0 &&
              old(client.currentLobby.players[0]) == client ==>
        var l := old(client.currentLobby);
        lobbies == old(lobbies) - {l.lobbyId} && forall p :: p in old(l.players) ==> p.currentLobby == null
      ensures old(client.currentLobby) != null && |old(client.currentLobby.players)| > 0 &&
              old(client.currentLobby.players[0]) != client ==>
        var l := old(client.currentLobby);
        l.players == RemoveFirst(old(l.players), client) && lobbies == old(lobbies)
      ensures completed <==> old(client.currentLobby) == null || |old(client.currentLobby.players)| > 0
      ensures completed ==> client.currentLobby == null
    {
      sent := LeaveGameStep(client);
      completed := LeaveLobbyStep(client);
    }

    /** The first step of a disconnect: `handle_player_leave_game` when the
        client is in a game. Afterwards the client is out of its game, and
        only a player walking out of an active game has sent anything, the
        forfeit. */
    method LeaveGameStep(client: ChessClient) returns (ghost sent: seq<Envelope>)
      modifies this`outbox, client`currentGame
      modifies GameOf(client)`whitePlayer, GameOf(client)`blackPlayer, GameOf(client)`spectators
      modifies GameOf(client)`isActive, ForfeitParties(client)`currentGame
      ensures client.currentGame == null
      ensures outbox == old(outbox) + sent
      ensures !old(Forfeits(client)) ==> sent == []
      ensures old(Forfeits(client)) ==>
        var g := old(client.currentGame);
        var ps := old(g.Participants());
        var ending := Ending(Disconnection, Some(if client == old(g.whitePlayer) then Black else White));
        |sent| == |ps| && FannedOut(sent, ps, GameOver(g.gameId, ending))
      ensures old(client.currentGame) != null ==>
        LeftGame(client, old(client.currentGame), old(SeatingOf(client.currentGame)))
    {
      if client.currentGame != null {
        HandlePlayerLeaveGame(client);
      }
      sent := outbox[|old(outbox)|..];
    }

    /** The second step of a disconnect: `handle_player_leave_lobby` when
        the client is in a lobby. A host walking out has closed the lobby, a
        guest has given up its seat. */
    method LeaveLobbyStep(client: ChessClient) returns (completed: bool)
      requires Valid()
      modifies this`outbox, this`lobbies, client`currentLobby
      modifies LobbyOf(client)`players, LobbyOf(client)`status, LobbyMatesOf(client)`currentLobby
      ensures Valid()
      ensures completed <==> old(client.currentLobby) == null || |old(client.currentLobby.players)| > 0
      ensures completed ==> client.currentLobby == null
      ensures outbox == old(outbox) + old(LobbyLeaveSends(client))
      ensures old(client.currentLobby) != null && |old(client.currentLobby.players)| > 0 &&
              old(client.currentLobby.players[0]) == client ==>
        var l := old(client.currentLobby);
        lobbies == old(lobbies) - {l.lobbyId} && forall p :: p in old(l.players) ==> p.currentLobby == null
      ensures old(client.currentLobby) != null && |old(client.currentLobby.players)| > 0 &&
              old(client.currentLobby.players[0]) != client ==>
        var l := old(client.currentLobby);
        l.players == RemoveFirst(old(l.players), client) && lobbies == old(lobbies)
    {
      completed := true;
      if client.currentLobby != null {
        completed := HandlePlayerLeaveLobby(client);
      }
    }

    /** Drops `client` from the client table, if it is there. */
    method Forget(client: ChessClient)
      modifies this`clients
      ensures clients == old(clients) - {client.clientId}
    {
      if client.clientId in clients {
        clients := clients - {client.clientId};
      }
    }
  }
}
