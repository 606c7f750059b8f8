/** The room bookkeeping of `server.js`: the module-level maps `games`,
    `players` and `playerTimers`, the timer helpers, and each socket handler
    as one atomic step over them. What the handlers send (`emit`, `to`,
    `except`) and the channel changes (`join`, `leave`) are appended to an
    event log; `setTimeout` callbacks become explicit `Fire...` steps. */
module Server {
  import opened Wrappers
  import opened Scoring
  import opened GameLogic
  import opened JsText

  /** The turn length the handlers pass to `setPlayerTimer`. */
  const TurnSeconds: nat := 60

  /** The fallback names of `server.js`: "player" when a name is missing,
      "unknown" for a guesser no longer in the roster. */
  const FallbackName: string := "\U{73A9}\U{5BB6}"
  const UnknownName: string := "\U{672A}\U{77E5}"

  /** A value of the `players` map: the room a socket joined and its name. */
  datatype PlayerEntry = PlayerEntry(gameId: string, playerName: string)

  /** A value of the `playerTimers` map: the room and the turn length that the
      timer's callback closes over, and whether the timer is still scheduled.
      The callback never removes its own entry, so a timer that has fired
      stays in the map, no longer scheduled, until it is cleared or replaced. */
  datatype TurnTimer = TurnTimer(gameId: string, seconds: nat, scheduled: bool)

  /** Who receives a message: one socket (`socket.emit`, `io.to(socketId)`),
      a room, or a room but one socket (`socket.to(room)`, `.except(id)`). */
  datatype Target = ToSocket(socketId: string) | ToRoom(room: string) | ToRoomExcept(room: string, except: string)

  /** The `message` of an `error` event. */
  datatype ErrorText =
    | NameRequired
    | InvalidRoomId
    | NotJoined
    | GameMissing
    | JoinRefused(addError: AddError)
    | GuessRefused(guessError: GuessError)

  /** One entry of the history sent with `gameOver`. */
  datatype HistoryLine = HistoryLine(player: string, guess: string, result: Score)

  /** The payloads of the events the server sends. */
  datatype Msg =
    | Error(text: ErrorText)
    | GameJoined(gameId: string, players: seq<Player>, isFull: bool)
    | PlayerJoined(player: Player, players: seq<Player>)
    | GameReady
    | YourTurn(timeLeft: nat)
    | WaitForOpponent
    | GuessResult(playerName: string, guess: string, result: Score)
    | GameOver(winner: string, winnerName: string, targetNumber: string, guesses: seq<HistoryLine>)
    | WaitingForOpponent
    | OpponentWaitingForRestart(playerName: string)
    | GameRestarted
    | OpponentExited(playerName: string)
    | ShowWaiting
    | OpponentDisconnected(playerName: string)

  datatype Event =
    | Emit(to: Target, msg: Msg)
    | JoinChannel(socketId: string, room: string)
    | LeaveChannel(socketId: string, room: string)

  /** How a handler without a `try` ends: normally, or by an exception that
      escapes it (reading `.name` of a player who is not in the roster, or
      `start` refusing a roster that is not two players). */
  datatype Fault = PlayerUndefined | StartRefused(error: StartError)
  datatype Completion = Completed | Threw(fault: Fault)

  /** A payload field that is missing or holds only white space. */
  predicate Blank(s: Option<string>) {
    s.None? || AllSpace(s.value)
  }

  /** `Blank` is the handler's test: the field is missing, or trimming it
      leaves the empty string. */
  lemma BlankIsTrimmedEmpty(s: Option<string>)
    ensures Blank(s) <==> s.None? || Trim(s.value) == []
  {
    if s.Some? {
      TrimIsEmptyIffBlank(s.value);
    }
  }

  /** A roster entry's name, or the fallback name when there is no entry or
      its name is empty. */
  function NameOrFallback(p: Option<Player>): string {
    if p.Some? && p.value.name != [] then p.value.name else FallbackName
  }

  /** The name in a `players` entry, or the fallback name when there is no
      entry or its name is empty. */
  function EntryNameOrFallback(e: Option<PlayerEntry>): string {
    if e.Some? && e.value.playerName != [] then e.value.playerName else FallbackName
  }

  /** `Map.prototype.get`. */
  function Get<K, V>(m: map<K, V>, k: K): Option<V> {
    if k in m then Some(m[k]) else None
  }

  /** The ids of a roster. */
  function IdsOf(roster: seq<Player>): set<string> {
    set p | p in roster :: p.id
  }

  /** The guess log as `handleGameOver` sends it: each guesser's current
      name (or "unknown"), the guess and its result. */
  function History(roster: seq<Player>, log: seq<GuessRecord>): seq<HistoryLine> {
    seq(|log|, i requires 0 <= i < |log| =>
      var name := FindById(roster, log[i].player);
      HistoryLine(if name.Some? && name.value.name != [] then name.value.name else UnknownName,
                  log[i].guess, log[i].result))
  }

  /** The two messages that hand the turn to `next` in room `gameId`. */
  function TurnStart(gameId: string, next: Player, seconds: nat): seq<Event> {
    [Emit(ToSocket(next.id), YourTurn(seconds)), Emit(ToRoomExcept(gameId, next.id), WaitForOpponent)]
  }

  /** The `gameOver` message: the author of the last guess is the winner. */
  function GameOverEvent(gameId: string, roster: seq<Player>, target: string, log: seq<GuessRecord>): Event
    requires |log| > 0 && InRoster(roster, log[|log| - 1].player)
  {
    var winner := FindById(roster, log[|log| - 1].player).value;
    Emit(ToRoom(gameId), GameOver(winner.id, winner.name, target, History(roster, log)))
  }

  /** What `getCurrentPlayer` returns for a roster and a pointer. */
  function CurrentOf(roster: seq<Player>, index: nat): Option<Player> {
    if index < |roster| then Some(roster[index]) else None
  }

  /** The player whose turn resumes after a departure: the current player
      of a room that is not empty, has started and is not over. */
  function ResumeFor(roster: seq<Player>, index: nat, started: bool, over: bool): Option<Player> {
    if roster != [] && started && !over then CurrentOf(roster, index) else None
  }

  /** The turn notice sent to the player whose turn resumes, if any. */
  function Nudge(next: Option<Player>): seq<Event> {
    if next.Some? then [Emit(ToSocket(next.value.id), YourTurn(TurnSeconds))] else []
  }

  /** The messages that hand the turn to `next`, if there is one. */
  function Handover(gameId: string, next: Option<Player>, seconds: nat): seq<Event> {
    if next.Some? then TurnStart(gameId, next.value, seconds) else []
  }

  /** `timers` after `setPlayerTimer` for `next`, if there is one. */
  function Armed(timers: map<string, TurnTimer>, gameId: string, next: Option<Player>, seconds: nat): map<string, TurnTimer> {
    if next.Some? then timers[next.value.id := TurnTimer(gameId, seconds, true)] else timers
  }

  /** What `joinGame` sends for an add with `outcome`: the refusal, or the
      channel join, the roster to the joiner and the news to the room. */
  function JoinNotices(socketId: string, gameId: string, joiner: Player, roster: seq<Player>,
                       outcome: Outcome<AddError>): seq<Event> {
    if outcome.Fail? then [Emit(ToSocket(socketId), Error(JoinRefused(outcome.error)))]
    else [JoinChannel(socketId, gameId),
          Emit(ToSocket(socketId), GameJoined(gameId, roster, |roster| == 2)),
          Emit(ToRoomExcept(gameId, socketId), PlayerJoined(joiner, roster))]
  }

  /** The module-level state of `server.js`, with the log of what it sent
      and the room cleanups scheduled by `handleGameOver`. */
  class Registry {
    var games: map<string, Game>
    var players: map<string, PlayerEntry>
    var playerTimers: map<string, TurnTimer>
    var cleanups: seq<string>
    var log: seq<Event>
    /** The room each `Game` was created for. */
    ghost var roomOf: map<Game, string>

    /** Each room's `Game` is valid and was created for that room, so no
        `Game` serves two rooms. */
    ghost predicate Valid()
      reads this`games, this`roomOf, games.Values
    {
      forall id :: id in games ==> games[id].Valid() && games[id] in roomOf && roomOf[games[id]] == id
    }

    /** The fields of a room's game; a missing room reads as a new one. */
    ghost function RosterOf(gameId: string): seq<Player>
      reads this`games, this`roomOf, games.Values
    {
      if gameId in games then games[gameId].players else []
    }

    ghost function GuessesOf(gameId: string): seq<GuessRecord>
      reads this`games, this`roomOf, games.Values
    {
      if gameId in games then games[gameId].guesses else []
    }

    ghost function VotesOf(gameId: string): set<string>
      reads this`games, this`roomOf, games.Values
    {
      if gameId in games then games[gameId].restartRequests else {}
    }

    ghost function StartedOf(gameId: string): bool
      reads this`games, this`roomOf, games.Values
    {
      gameId in games && games[gameId].isGameStarted
    }

    ghost function PointerOf(gameId: string): nat
      reads this`games, this`roomOf, games.Values
    {
      if gameId in games then games[gameId].currentPlayerIndex else 0
    }

    /** The game of the room that `socketId` joined, as a frame: empty when
        the socket has no entry or its room is gone. */
    ghost function JoinedGame(socketId: string): set<Game>
      reads this
    {
      if socketId in players && players[socketId].gameId in games then {games[players[socketId].gameId]} else {}
    }

    /** The game of room `gameId`, as a frame: empty when there is none. */
    ghost function RoomGame(gameId: string): set<Game>
      reads this
    {
      if gameId in games then {games[gameId]} else {}
    }

    /** Only the log changed, by `extra`. */
    twostate predicate OnlyLogged(extra: seq<Event>)
      reads this
    {
      && games == old(games) && players == old(players) && playerTimers == old(playerTimers)
      && cleanups == old(cleanups) && log == old(log) + extra
    }

    constructor ()
      ensures Valid()
      ensures games == map[] && players == map[] && playerTimers == map[]
      ensures cleanups == [] && log == []
    {
      games, players, playerTimers := map[], map[], map[];
      cleanups, log := [], [];
      roomOf := map[];
    }

    /** Appends what a handler sends, or its channel changes, to the log. */
    method Send(events: seq<Event>)
      requires Valid()
      modifies this`log
      ensures Valid()
      ensures log == old(log) + events
    {
      log := log + events;
    }

    /** `players.set(socketId, entry)`. */
    method SetEntry(socketId: string, entry: PlayerEntry)
      requires Valid()
      modifies this`players
      ensures Valid()
      ensures players == old(players)[socketId := entry]
    {
      players := players[socketId := entry];
    }

    /** `players.delete(socketId)`. */
    method DropEntry(socketId: string)
      requires Valid()
      modifies this`players
      ensures Valid()
      ensures players == old(players) - {socketId}
    {
      players := players - {socketId};
    }

    /** `clearPlayerTimer`: cancels and forgets this socket's timer, if any;
        no other socket's timer is touched. */
    method ClearPlayerTimer(socketId: string)
      requires Valid()
      modifies this`playerTimers
      ensures Valid()
      ensures socketId !in playerTimers
      ensures playerTimers == old(playerTimers) - {socketId}
    {
      if socketId in playerTimers {
        playerTimers := playerTimers - {socketId};
      }
    }

    /** `setPlayerTimer`: replaces whatever timer the socket had by exactly one
        new scheduled timer; every other socket's timer is kept. */
    method SetPlayerTimer(socketId: string, gameId: string, seconds: nat)
      requires Valid()
      modifies this`playerTimers
      ensures Valid()
      ensures playerTimers == old(playerTimers)[socketId := TurnTimer(gameId, seconds, true)]
    {
      ClearPlayerTimer(socketId);
      playerTimers := playerTimers[socketId := TurnTimer(gameId, seconds, true)];
    }

    /** A timer that has fired is no longer scheduled; its entry stays in
        `playerTimers`, because the callback does not delete it. */
    method MarkFired(socketId: string)
      requires Valid() && socketId in playerTimers
      modifies this`playerTimers
      ensures Valid()
      ensures playerTimers == old(playerTimers)[socketId := old(playerTimers[socketId]).(scheduled := false)]
    {
      playerTimers := playerTimers[socketId := playerTimers[socketId].(scheduled := false)];
    }

    /** `handleGameOver`: clears the timers of everyone in the room, announces
        the winner (the author of the last guess), the secret and the
        history, and schedules the room's cleanup. */
    method HandleGameOver(gameId: string, game: Game)
      requires Valid()
      requires |game.guesses| > 0 && InRoster(game.players, game.guesses[|game.guesses| - 1].player)
      modifies this`playerTimers, this`log, this`cleanups
      ensures Valid()
      ensures playerTimers == old(playerTimers) - IdsOf(game.players)
      ensures forall p :: p in game.players ==> p.id !in playerTimers
      ensures log == old(log) + [GameOverEvent(gameId, game.players, game.targetNumber, game.guesses)]
      ensures cleanups == old(cleanups) + [gameId]
    {
      for i := 0 to |game.players|
        invariant playerTimers == old(playerTimers) - IdsOf(game.players[..i])
        invariant Valid() && log == old(log) && cleanups == old(cleanups)
      {
        assert IdsOf(game.players[..i + 1]) == IdsOf(game.players[..i]) + {game.players[i].id} by {
          assert game.players[..i + 1] == game.players[..i] + [game.players[i]];
        }
        ClearPlayerTimer(game.players[i].id);
      }
      assert game.players[..|game.players|] == game.players;
      Send([GameOverEvent(gameId, game.players, game.targetNumber, game.guesses)]);
      // setTimeout(..., 5000)
      cleanups := cleanups + [gameId];
    }

    /** The callback of `handleGameOver`'s timer, which fires after every
        cleanup scheduled before it: the room is deleted only if it still
        exists and nobody has voted to restart. */
    method FireCleanup()
      requires Valid() && cleanups != []
      modifies this`games, this`cleanups
      ensures Valid()
      ensures cleanups == old(cleanups[1..])
      ensures var gameId := old(cleanups[0]);
              games == if gameId in old(games) && old(games[gameId].restartRequests) == {}
                       then old(games) - {gameId} else old(games)
    {
      var gameId := cleanups[0];
      cleanups := cleanups[1..];
      if gameId in games && games[gameId].restartRequests == {} {
        games := games - {gameId};
      }
    }

    /** What follows an accepted guess, in the `makeGuess` handler and in a
        turn timer's callback: the guess is `announced` to the room, then
        `handleGameOver` runs when the game is over, and otherwise the turn
        is handed to the current player with a new timer. */
    method AfterGuess(gameId: string, game: Game, seconds: nat, announced: Event)
      requires Valid()
      requires game.IsGameOver() ==> InRoster(game.players, game.guesses[|game.guesses| - 1].player)
      modifies this`playerTimers, this`log, this`cleanups
      ensures Valid()
      ensures var over := game.IsGameOver();
              var next := if over then None else game.GetCurrentPlayer();
              && playerTimers == (if over then old(playerTimers) - IdsOf(game.players)
                                  else Armed(old(playerTimers), gameId, next, seconds))
              && cleanups == old(cleanups) + (if over then [gameId] else [])
              && log == old(log) + [announced]
                        + (if over then [GameOverEvent(gameId, game.players, game.targetNumber, game.guesses)]
                           else Handover(gameId, next, seconds))
    {
      Send([announced]);
      if game.IsGameOver() {
        HandleGameOver(gameId, game);
      } else {
        var next := game.GetCurrentPlayer();
        if next.Some? {
          Send(TurnStart(gameId, next.value, seconds));
          SetPlayerTimer(next.value.id, gameId, seconds);
        }
      }
    }

    /** The forfeit a turn timer records for `socketId`, which holds the
        turn in room `gameId`: one forfeit entry is logged and announced under
        the name in the socket's `players` entry, and since a forfeit never
        ends the game, the turn passes on with a new timer. */
    method Forfeit(socketId: string, gameId: string, game: Game, seconds: nat, now: int)
      requires Valid() && gameId in games && games[gameId] == game
      requires IsTurnOf(game.players, game.currentPlayerIndex, socketId)
      modifies this`log, this`playerTimers, this`cleanups, game
      ensures Valid() && cleanups == old(cleanups)
      ensures game.State() == old(game.State()).(guesses := game.guesses, currentPlayerIndex := game.currentPlayerIndex)
      ensures game.guesses == old(game.guesses) + [GuessRecord(socketId, TimeoutLabel, Score(0, 0), now)]
      ensures game.currentPlayerIndex == Toggled(|game.players|, old(game.currentPlayerIndex))
      ensures !game.IsGameOver() && game.currentPlayerIndex < |game.players|
      ensures var next := game.players[game.currentPlayerIndex];
              && playerTimers == old(playerTimers)[next.id := TurnTimer(gameId, seconds, true)]
              && log == old(log)
                        + [Emit(ToRoom(gameId), GuessResult(EntryNameOrFallback(Get(players, socketId)), TimeoutLabel, Score(0, 0)))]
                        + TurnStart(gameId, next, seconds)
    {
      var result := game.MakeGuess(socketId, TimeoutGuess, now);
      AfterGuess(gameId, game, seconds,
                 Emit(ToRoom(gameId), GuessResult(EntryNameOrFallback(Get(players, socketId)), TimeoutLabel, result.value)));
    }

    /** The callback of a turn timer. It acts only if the room still exists
        and the timed-out socket holds the turn; then it records a forfeit.
        The fired timer's entry stays in `playerTimers`, marked as not
        scheduled. */
    method FireTimer(socketId: string, now: int)
      requires Valid() && socketId in playerTimers && playerTimers[socketId].scheduled
      modifies this, RoomGame(playerTimers[socketId].gameId)
      ensures Valid()
      ensures players == old(players) && cleanups == old(cleanups) && games == old(games)
      ensures var timer := old(playerTimers[socketId]);
              var gameId := timer.gameId;
              var fired := old(playerTimers)[socketId := timer.(scheduled := false)];
              if gameId in old(games) && IsTurnOf(old(games[gameId].players), old(games[gameId].currentPlayerIndex), socketId) then
                var game := games[gameId];
                && game.State() == old(game.State()).(guesses := game.guesses, currentPlayerIndex := game.currentPlayerIndex)
                && game.guesses == old(game.guesses) + [GuessRecord(socketId, TimeoutLabel, Score(0, 0), now)]
                && game.currentPlayerIndex == Toggled(|game.players|, old(game.currentPlayerIndex))
                && !game.IsGameOver()
                && game.currentPlayerIndex < |game.players|
                && var next := game.players[game.currentPlayerIndex];
                && playerTimers == fired[next.id := TurnTimer(gameId, timer.seconds, true)]
                && log == old(log)
                          + [Emit(ToRoom(gameId), GuessResult(EntryNameOrFallback(Get(old(players), socketId)), TimeoutLabel, Score(0, 0)))]
                          + TurnStart(gameId, next, timer.seconds)
              else
                && playerTimers == fired && log == old(log)
                && (gameId in games ==> unchanged(games[gameId]))
    {
      var timer := playerTimers[socketId];
      MarkFired(socketId);
      var gameId := timer.gameId;
      if gameId in games {
        var game := games[gameId];
        var current := game.GetCurrentPlayer();
        if current.Some? && current.value.id == socketId {
          Forfeit(socketId, gameId, game, timer.seconds, now);
        }
      }
    }

    /** `games.get(gameId)`, registering a new `Game` under `gameId` when
        there is none. */
    method RoomFor(gameId: string) returns (game: Game)
      requires Valid()
      modifies this`games, this`roomOf
      ensures Valid() && game.Valid()
      ensures games == old(games)[gameId := game]
      ensures gameId in old(games) ==> game == old(games[gameId]) && game.targetNumber == old(game.targetNumber)
      ensures gameId !in old(games) ==>
                && fresh(game)
                && game.players == [] && game.guesses == [] && game.currentPlayerIndex == 0
                && game.restartRequests == {} && !game.isGameStarted
    {
      if gameId in games {
        game := games[gameId];
      } else {
        game := new Game();
        games := games[gameId := game];
        roomOf := roomOf[game := gameId];
      }
    }

    /** Starts the room's game: when `start` accepts the roster, the room
        hears `announce`, the first player gets the turn and the only new
        timer. When `start` refuses, nothing else happens. */
    method StartRoom(gameId: string, game: Game, announce: Msg) returns (r: Result<Player, StartError>)
      requires Valid() && gameId in games && games[gameId] == game
      modifies this`log, this`playerTimers, game
      ensures Valid()
      ensures |old(game.players)| != 2 ==>
                && r == Failure(NeedTwoPlayers) && game.State() == old(game.State())
                && log == old(log) && playerTimers == old(playerTimers)
      ensures |old(game.players)| == 2 ==>
                && game.State() == old(game.State()).(isGameStarted := true, currentPlayerIndex := game.currentPlayerIndex)
                && game.currentPlayerIndex < 2
                && r == Success(game.players[game.currentPlayerIndex])
                && log == old(log) + [Emit(ToRoom(gameId), announce)] + TurnStart(gameId, r.value, TurnSeconds)
                && playerTimers == old(playerTimers)[r.value.id := TurnTimer(gameId, TurnSeconds, true)]
    {
      r := game.Start();
      if r.Success? {
        Send([Emit(ToRoom(gameId), announce)] + TurnStart(gameId, r.value, TurnSeconds));
        SetPlayerTimer(r.value.id, gameId, TurnSeconds);
      }
    }

    /** The `try` block of `joinGame`: adds the player to the room's game;
        a refusal is reported and leaves no `players` entry; the join that
        completes a roster of two in a game not yet started starts it. */
    method Admit(socketId: string, gameId: string, name: string, game: Game)
      requires Valid() && gameId in games && games[gameId] == game
      modifies this`players, this`log, this`playerTimers, game
      ensures Valid()
      ensures game.targetNumber == old(game.targetNumber)
      ensures game.guesses == old(game.guesses) && game.restartRequests == old(game.restartRequests)
      ensures var joiner := Player(socketId, name);
              var outcome := AddOutcome(old(game.players), joiner);
              var startsNow := outcome.Pass? && |old(game.players)| == 1 && !old(game.isGameStarted);
              && game.players == (if outcome.Pass? then old(game.players) + [joiner] else old(game.players))
              && players == (if outcome.Pass? then old(players)[socketId := PlayerEntry(gameId, name)] else old(players))
              && game.isGameStarted == (old(game.isGameStarted) || startsNow)
              && (if startsNow then game.currentPlayerIndex < |game.players|
                  else game.currentPlayerIndex == old(game.currentPlayerIndex))
              && var first := if startsNow then CurrentOf(game.players, game.currentPlayerIndex) else None;
              && playerTimers == Armed(old(playerTimers), gameId, first, TurnSeconds)
              && log == old(log) + JoinNotices(socketId, gameId, joiner, game.players, outcome)
                        + (if startsNow then [Emit(ToRoom(gameId), GameReady)] else [])
                        + Handover(gameId, first, TurnSeconds)
    {
      var joiner := Player(socketId, name);
      var added := game.AddPlayer(joiner);
      if added.Fail? {
        Send([Emit(ToSocket(socketId), Error(JoinRefused(added.error)))]);
        return;
      }
      SetEntry(socketId, PlayerEntry(gameId, name));
      Send([JoinChannel(socketId, gameId),
                    Emit(ToSocket(socketId), GameJoined(gameId, game.players, |game.players| == 2)),
                    Emit(ToRoomExcept(gameId, socketId), PlayerJoined(joiner, game.players))]);
      if |game.players| == 2 && !game.isGameStarted {
        var _ := StartRoom(gameId, game, GameReady);
      }
    }

    /** What `joinGame` does once name and room id are known to be
        non-blank: room `gameId` exists afterwards, holding the game it held
        (with its secret) or a fresh one, and `name` is admitted to it; a
        refusal leaves no `players` entry. The join that completes a roster
        of two in a game not yet started starts it and arms exactly one
        timer, for the first player. No other room changes. */
    twostate predicate Entered(socketId: string, gameId: string, name: string)
      reads this, RoomGame(gameId)
    {
      var joiner := Player(socketId, name);
      var before := old(RosterOf(gameId));
      var outcome := AddOutcome(before, joiner);
      var startsNow := outcome.Pass? && |before| == 1 && !old(StartedOf(gameId));
      && gameId in games
      && games == old(games)[gameId := games[gameId]]
      && (gameId in old(games) ==> games[gameId] == old(games[gameId]))
      && (gameId !in old(games) ==> fresh(games[gameId]))
      && cleanups == old(cleanups)
      && var game := games[gameId];
      && (gameId in old(games) ==> game.targetNumber == old(games[gameId].targetNumber))
      && game.guesses == old(GuessesOf(gameId)) && game.restartRequests == old(VotesOf(gameId))
      && game.players == (if outcome.Pass? then before + [joiner] else before)
      && players == (if outcome.Pass? then old(players)[socketId := PlayerEntry(gameId, name)] else old(players))
      && game.isGameStarted == (old(StartedOf(gameId)) || startsNow)
      && (if startsNow then game.currentPlayerIndex < |game.players|
          else game.currentPlayerIndex == old(PointerOf(gameId)))
      && var first := if startsNow then CurrentOf(game.players, game.currentPlayerIndex) else None;
      && playerTimers == Armed(old(playerTimers), gameId, first, TurnSeconds)
      && log == old(log) + JoinNotices(socketId, gameId, joiner, game.players, outcome)
                + (if startsNow then [Emit(ToRoom(gameId), GameReady)] else [])
                + Handover(gameId, first, TurnSeconds)
    }

    /** The body of `joinGame` past its two blank checks. */
    method Enter(socketId: string, gameId: string, name: string)
      requires Valid()
      modifies this, RoomGame(gameId)
      ensures Valid()
      ensures Entered(socketId, gameId, name)
    {
      var game := RoomFor(gameId);
      assert && game.players == old(RosterOf(gameId)) && game.isGameStarted == old(StartedOf(gameId))
             && game.currentPlayerIndex == old(PointerOf(gameId))
             && game.guesses == old(GuessesOf(gameId)) && game.restartRequests == old(VotesOf(gameId));
      Admit(socketId, gameId, name, game);
    }

    /** The `joinGame` handler. A blank name or room id is reported and
        changes nothing; otherwise the trimmed name enters the room. */
    method JoinGame(socketId: string, gameId: Option<string>, playerName: Option<string>)
      requires Valid()
      modifies this, if !Blank(playerName) && !Blank(gameId) then RoomGame(gameId.value) else {}
      ensures Valid()
      ensures Blank(playerName) ==> OnlyLogged([Emit(ToSocket(socketId), Error(NameRequired))])
      ensures !Blank(playerName) && Blank(gameId) ==> OnlyLogged([Emit(ToSocket(socketId), Error(InvalidRoomId))])
      ensures !Blank(playerName) && !Blank(gameId) ==> Entered(socketId, gameId.value, Trim(playerName.value))
    {
      if Blank(playerName) {
        Send([Emit(ToSocket(socketId), Error(NameRequired))]);
        return;
      }
      if Blank(gameId) {
        Send([Emit(ToSocket(socketId), Error(InvalidRoomId))]);
        return;
      }
      Enter(socketId, gameId.value, Trim(playerName.value));
    }

    /** What the `try` block of `makeGuess` does to room `gameId`, whose game
        is `game`. The caller's timer is cleared first, and stays cleared when
        the guess is refused; a refusal is reported to the caller and changes
        nothing else. An accepted guess is logged as the caller's, announced
        under the caller's roster name, and then either the secret was
        guessed (every timer of the room is cleared, the winner announced and
        the room's cleanup scheduled) or the turn passes on with the only new
        timer. */
    twostate predicate Played(socketId: string, gameId: string, game: Game, guess: string, now: int)
      reads this, game
    {
      var refusal := GuessRefusal(old(game.players), old(game.currentPlayerIndex), socketId, guess);
      var cleared := old(playerTimers) - {socketId};
      && games == old(games) && players == old(players)
      && (refusal.Some? ==>
            && game.State() == old(game.State())
            && playerTimers == cleared && cleanups == old(cleanups)
            && log == old(log) + [Emit(ToSocket(socketId), Error(GuessRefused(refusal.value)))])
      && (refusal.None? ==>
            && Accepted(old(game.State()), game, socketId, guess, now)
            && var over := game.IsGameOver();
            && var next := if over then None else game.GetCurrentPlayer();
            && playerTimers == (if over then cleared - IdsOf(game.players) else Armed(cleared, gameId, next, TurnSeconds))
            && cleanups == old(cleanups) + (if over then [gameId] else [])
            && log == old(log) + [Emit(ToRoom(gameId), GuessResult(FindById(game.players, socketId).value.name, guess, game.guesses[|game.guesses| - 1].result))]
                      + (if over then [GameOverEvent(gameId, game.players, game.targetNumber, game.guesses)]
                         else Handover(gameId, next, TurnSeconds)))
    }

    /** What `game.makeGuess` does with a guess it accepts, from the state
        `before`: one entry is appended to the log, the caller's, holding the
        guess (or the forfeit label) and its score; the game is over exactly
        when the guess is the secret, and otherwise the turn passes on.
        Nothing else changes. */
    ghost predicate Accepted(before: GameState, game: Game, socketId: string, guess: string, now: int)
      reads game
    {
      && game.State() == before.(guesses := game.guesses, currentPlayerIndex := game.currentPlayerIndex)
      && InRoster(game.players, socketId)
      && IsValidCode(game.targetNumber)
      && |game.guesses| == |before.guesses| + 1
      && game.guesses[..|game.guesses| - 1] == before.guesses
      && var record := game.guesses[|game.guesses| - 1];
      && record.player == socketId && record.timestamp == now
      && record.guess == (if guess == TimeoutGuess then TimeoutLabel else guess)
      && RecordAgrees(record, game.targetNumber)
      && var over := game.IsGameOver();
      && (over <==> guess == game.targetNumber)
      && game.currentPlayerIndex == (if over then before.currentPlayerIndex
                                     else Toggled(|game.players|, before.currentPlayerIndex))
      && (!over ==> game.currentPlayerIndex < |game.players|)
    }

    /** `game.makeGuess` on the room's game, with what an accepted guess means
        for the log, the secret and the turn. */
    method Judge(gameId: string, game: Game, socketId: string, guess: string, now: int) returns (r: Result<Score, GuessError>)
      requires Valid() && gameId in games && games[gameId] == game
      modifies game
      ensures Valid()
      ensures var refusal := GuessRefusal(old(game.players), old(game.currentPlayerIndex), socketId, guess);
              && (refusal.Some? ==> r == Failure(refusal.value) && game.State() == old(game.State()))
              && (refusal.None? ==> r.Success? && Accepted(old(game.State()), game, socketId, guess, now)
                                    && r.value == game.guesses[|game.guesses| - 1].result)
    {
      r := game.MakeGuess(socketId, guess, now);
      if r.Success? {
        GameOverIffSecretGuessed(game.guesses, game.targetNumber);
        assert !IsDigit(TimeoutLabel[0]);
      }
    }

    /** The `try` block of the `makeGuess` handler. */
    method Play(socketId: string, gameId: string, game: Game, guess: string, now: int)
      requires Valid() && gameId in games && games[gameId] == game
      modifies this`log, this`playerTimers, this`cleanups, game
      ensures Valid()
      ensures Played(socketId, gameId, game, guess, now)
    {
      ClearPlayerTimer(socketId);
      var result := Judge(gameId, game, socketId, guess, now);
      if result.Failure? {
        Send([Emit(ToSocket(socketId), Error(GuessRefused(result.error)))]);
        return;
      }
      var player := FindById(game.players, socketId).value;
      AfterGuess(gameId, game, TurnSeconds, Emit(ToRoom(gameId), GuessResult(player.name, guess, result.value)));
    }

    /** The `makeGuess` handler. An unknown socket or a vanished room is
        reported and changes nothing; otherwise the guess is played in the
        socket's room. The forfeit value "timeout" is accepted from a client
        as well. */
    method MakeGuess(socketId: string, guess: string, now: int)
      requires Valid()
      modifies this, JoinedGame(socketId)
      ensures Valid()
      ensures socketId !in old(players) ==> OnlyLogged([Emit(ToSocket(socketId), Error(NotJoined))])
      ensures socketId in old(players) && old(players[socketId].gameId) !in old(games) ==>
                OnlyLogged([Emit(ToSocket(socketId), Error(GameMissing))])
      ensures socketId in old(players) && old(players[socketId].gameId) in old(games) ==>
                Played(socketId, old(players[socketId].gameId), old(games[players[socketId].gameId]), guess, now)
    {
      if socketId !in players {
        Send([Emit(ToSocket(socketId), Error(NotJoined))]);
        return;
      }
      var gid := players[socketId].gameId;
      if gid !in games {
        Send([Emit(ToSocket(socketId), Error(GameMissing))]);
        return;
      }
      Play(socketId, gid, games[gid], guess, now);
    }

    /** What the `restartGame` handler does to room `gameId`, whose game is
        `game`, with `c` telling how the handler ended. The requester's timer
        is cleared and its vote recorded. A requester missing from the roster
        (one whose stale vote is all that is left of it) makes the handler
        throw once the vote is recorded. When the vote set reaches two the
        game is reset; `start` then either starts it, announcing the restart
        and arming a timer for the new first player, or throws because the
        roster is not two (a vote of a departed player still counts). */
    twostate predicate Voted(socketId: string, gameId: string, game: Game, c: Completion)
      reads this, game
    {
      var votes := old(game.restartRequests) + {socketId};
      var requester := FindById(old(game.players), socketId);
      var cleared := old(playerTimers) - {socketId};
      var waiting := Emit(ToSocket(socketId), WaitingForOpponent);
      && games == old(games) && players == old(players) && cleanups == old(cleanups)
      && game.players == old(game.players)
      && (requester.None? ==>
            && c == Threw(PlayerUndefined)
            && game.State() == old(game.State()).(restartRequests := votes)
            && playerTimers == cleared && log == old(log) + [waiting])
      && (requester.Some? ==>
            var told := old(log) + [waiting, Emit(ToRoomExcept(gameId, socketId), OpponentWaitingForRestart(requester.value.name))];
            && (|votes| != 2 ==>
                  && c == Completed
                  && game.State() == old(game.State()).(restartRequests := votes)
                  && playerTimers == cleared && log == told)
            && (|votes| == 2 ==>
                  var starts := |game.players| == 2;
                  && game.guesses == [] && game.restartRequests == {}
                  && IsValidCode(game.targetNumber) && game.currentPlayerIndex < 2
                  && game.isGameStarted == starts
                  && c == (if starts then Completed else Threw(StartRefused(NeedTwoPlayers)))
                  && var first := if starts then CurrentOf(game.players, game.currentPlayerIndex) else None;
                  && playerTimers == Armed(cleared, gameId, first, TurnSeconds)
                  && log == told + (if starts then [Emit(ToRoom(gameId), GameRestarted)] else [])
                            + Handover(gameId, first, TurnSeconds)))
    }

    /** Resets and starts the room's game once the vote set reaches two. */
    method RestartRoom(gameId: string, game: Game) returns (c: Completion)
      requires Valid() && gameId in games && games[gameId] == game
      modifies this`log, this`playerTimers, game
      ensures Valid()
      ensures game.players == old(game.players)
      ensures game.guesses == [] && game.restartRequests == {} && game.currentPlayerIndex < 2
      ensures IsValidCode(game.targetNumber)
      ensures var starts := |game.players| == 2;
              && game.isGameStarted == starts
              && c == (if starts then Completed else Threw(StartRefused(NeedTwoPlayers)))
              && var first := if starts then CurrentOf(game.players, game.currentPlayerIndex) else None;
              && playerTimers == Armed(old(playerTimers), gameId, first, TurnSeconds)
              && log == old(log) + (if starts then [Emit(ToRoom(gameId), GameRestarted)] else [])
                        + Handover(gameId, first, TurnSeconds)
    {
      game.Reset();
      var started := StartRoom(gameId, game, GameRestarted);
      c := if started.Success? then Completed else Threw(StartRefused(started.error));
    }

    /** The start of `restartGame` once the socket's room is known: the
        requester's timer is cleared, its vote recorded and the requester
        told to wait. Reports whether two ids have voted, and the requester's
        roster entry. */
    method Ballot(socketId: string, gameId: string, game: Game) returns (ready: bool, requester: Option<Player>)
      requires Valid() && gameId in games && games[gameId] == game
      modifies this`log, this`playerTimers, game
      ensures Valid()
      ensures game.State() == old(game.State()).(restartRequests := old(game.restartRequests) + {socketId})
      ensures ready <==> |game.restartRequests| == 2
      ensures requester == FindById(game.players, socketId)
      ensures playerTimers == old(playerTimers) - {socketId}
      ensures log == old(log) + [Emit(ToSocket(socketId), WaitingForOpponent)]
    {
      ClearPlayerTimer(socketId);
      ready := game.RequestRestart(socketId);
      requester := FindById(game.players, socketId);
      Send([Emit(ToSocket(socketId), WaitingForOpponent)]);
    }

    /** The body of the `restartGame` handler once the socket's room is known. */
    method Vote(socketId: string, gameId: string, game: Game) returns (c: Completion)
      requires Valid() && gameId in games && games[gameId] == game
      modifies this`log, this`playerTimers, game
      ensures Valid()
      ensures Voted(socketId, gameId, game, c)
    {
      var shouldRestart, player := Ballot(socketId, gameId, game);
      if player.None? {
        // `player.name` of `undefined`
        return Threw(PlayerUndefined);
      }
      Send([Emit(ToRoomExcept(gameId, socketId), OpponentWaitingForRestart(player.value.name))]);
      c := Completed;
      if shouldRestart {
        c := RestartRoom(gameId, game);
      }
    }

    /** The `restartGame` handler. An unknown socket or a vanished room is
        reported and changes nothing; otherwise the vote is cast in the
        socket's room. */
    method RestartGame(socketId: string) returns (c: Completion)
      requires Valid()
      modifies this, JoinedGame(socketId)
      ensures Valid()
      ensures socketId !in old(players) ==> c == Completed && OnlyLogged([Emit(ToSocket(socketId), Error(NotJoined))])
      ensures socketId in old(players) && old(players[socketId].gameId) !in old(games) ==>
                c == Completed && OnlyLogged([Emit(ToSocket(socketId), Error(GameMissing))])
      ensures socketId in old(players) && old(players[socketId].gameId) in old(games) ==>
                Voted(socketId, old(players[socketId].gameId), old(games[players[socketId].gameId]), c)
    {
      if socketId !in players {
        Send([Emit(ToSocket(socketId), Error(NotJoined))]);
        return Completed;
      }
      var gid := players[socketId].gameId;
      if gid !in games {
        Send([Emit(ToSocket(socketId), Error(GameMissing))]);
        return Completed;
      }
      c := Vote(socketId, gid, games[gid]);
    }

    /** `game.removePlayer(socketId)` on the room's game. */
    method RemoveFromRoom(gameId: string, game: Game, socketId: string)
      requires Valid() && gameId in games && games[gameId] == game
      modifies game
      ensures Valid()
      ensures game.players == WithoutId(old(game.players), socketId)
      ensures game.currentPlayerIndex == old(game.currentPlayerIndex) % Max(1, |game.players|)
      ensures game.State() == old(game.State()).(players := game.players, currentPlayerIndex := game.currentPlayerIndex)
    {
      game.RemovePlayer(socketId);
    }

    /** What follows a removal in the `exitGame` and `disconnect` handlers:
        an emptied room is deleted; in a running game that is not over the
        current player is told it is their turn and gets the only new timer. */
    method SettleRoom(gameId: string, game: Game)
      requires Valid() && gameId in games && games[gameId] == game
      modifies this`games, this`log, this`playerTimers
      ensures Valid()
      ensures games == if game.players == [] then old(games) - {gameId} else old(games)
      ensures var next := ResumeFor(game.players, game.currentPlayerIndex, game.isGameStarted, game.IsGameOver());
              && log == old(log) + Nudge(next)
              && playerTimers == Armed(old(playerTimers), gameId, next, TurnSeconds)
    {
      if |game.players| == 0 {
        games := games - {gameId};
      } else if game.isGameStarted && !game.IsGameOver() {
        var current := game.GetCurrentPlayer();
        if current.Some? {
          Send([Emit(ToSocket(current.value.id), YourTurn(TurnSeconds))]);
          SetPlayerTimer(current.value.id, gameId, TurnSeconds);
        }
      }
    }

    /** The room part of `exitGame` and `disconnect`: the socket's timer is
        cleared, the rest of the room is told `notice`, the player is removed
        and the room settled. The two handlers order the notice and the
        removal differently, which the log cannot tell apart. */
    method Vacate(socketId: string, gameId: string, game: Game, notice: Event)
      requires Valid() && gameId in games && games[gameId] == game
      modifies this`games, this`log, this`playerTimers, game
      ensures Valid()
      ensures var remaining := WithoutId(old(game.players), socketId);
              var next := ResumeFor(remaining, game.currentPlayerIndex, old(game.isGameStarted), LastIsWin(old(game.guesses)));
              && game.players == remaining
              && game.currentPlayerIndex == old(game.currentPlayerIndex) % Max(1, |remaining|)
              && game.State() == old(game.State()).(players := remaining, currentPlayerIndex := game.currentPlayerIndex)
              && games == (if remaining == [] then old(games) - {gameId} else old(games))
              && playerTimers == Armed(old(playerTimers) - {socketId}, gameId, next, TurnSeconds)
              && log == old(log) + [notice] + Nudge(next)
    {
      ClearPlayerTimer(socketId);
      Send([notice]);
      RemoveFromRoom(gameId, game, socketId);
      SettleRoom(gameId, game);
    }

    /** The end of `exitGame`: the socket leaves the room's channel, loses
        its `players` entry and is sent back to waiting. */
    method Farewell(socketId: string, gameId: string)
      requires Valid()
      modifies this`log, this`players
      ensures Valid()
      ensures players == old(players) - {socketId}
      ensures log == old(log) + [LeaveChannel(socketId, gameId), Emit(ToSocket(socketId), ShowWaiting)]
    {
      Send([LeaveChannel(socketId, gameId)]);
      DropEntry(socketId);
      Send([Emit(ToSocket(socketId), ShowWaiting)]);
    }

    /** The `exitGame` handler. For a joined socket it clears the socket's
        timer, tells the rest of the room (under the name read before the
        removal), removes the player, settles the room, leaves the channel,
        drops the socket's `players` entry and sends it back to waiting. */
    method ExitGame(socketId: string)
      requires Valid()
      modifies this, JoinedGame(socketId)
      ensures Valid()
      ensures socketId !in old(players) ==> OnlyLogged([])
      ensures socketId in old(players) ==>
                var gid := old(players[socketId].gameId);
                var farewell := [LeaveChannel(socketId, gid), Emit(ToSocket(socketId), ShowWaiting)];
                && players == old(players) - {socketId}
                && cleanups == old(cleanups)
                && (gid !in old(games) ==>
                      && games == old(games)
                      && playerTimers == old(playerTimers) - {socketId}
                      && log == old(log) + farewell)
                && (gid in old(games) ==>
                      var game := old(games[gid]);
                      var remaining := WithoutId(old(game.players), socketId);
                      var notice := Emit(ToRoomExcept(gid, socketId), OpponentExited(NameOrFallback(FindById(old(game.players), socketId))));
                      var next := ResumeFor(remaining, game.currentPlayerIndex, old(game.isGameStarted), LastIsWin(old(game.guesses)));
                      && game.players == remaining
                      && game.currentPlayerIndex == old(game.currentPlayerIndex) % Max(1, |remaining|)
                      && game.State() == old(game.State()).(players := remaining, currentPlayerIndex := game.currentPlayerIndex)
                      && games == (if remaining == [] then old(games) - {gid} else old(games))
                      && playerTimers == Armed(old(playerTimers) - {socketId}, gid, next, TurnSeconds)
                      && log == old(log) + [notice] + Nudge(next) + farewell)
    {
      if socketId !in players {
        return;
      }
      var gid := players[socketId].gameId;
      if gid in games {
        var game := games[gid];
        var player := FindById(game.players, socketId);
        Vacate(socketId, gid, game, Emit(ToRoomExcept(gid, socketId), OpponentExited(NameOrFallback(player))));
      } else {
        ClearPlayerTimer(socketId);
      }
      Farewell(socketId, gid);
    }

    /** The `disconnect` handler: like `exitGame`, except that the timer is
        cleared even for a socket that never joined, the rest of the room is
        told after the removal, and nothing is sent to the departed socket. */
    method Disconnect(socketId: string)
      requires Valid()
      modifies this, JoinedGame(socketId)
      ensures Valid()
      ensures socketId !in old(players) ==>
                && games == old(games) && players == old(players) && cleanups == old(cleanups) && log == old(log)
                && playerTimers == old(playerTimers) - {socketId}
      ensures socketId in old(players) ==>
                var gid := old(players[socketId].gameId);
                && players == old(players) - {socketId}
                && cleanups == old(cleanups)
                && (gid !in old(games) ==>
                      && games == old(games)
                      && playerTimers == old(playerTimers) - {socketId}
                      && log == old(log))
                && (gid in old(games) ==>
                      var game := old(games[gid]);
                      var remaining := WithoutId(old(game.players), socketId);
                      var notice := Emit(ToRoomExcept(gid, socketId), OpponentDisconnected(NameOrFallback(FindById(old(game.players), socketId))));
                      var next := ResumeFor(remaining, game.currentPlayerIndex, old(game.isGameStarted), LastIsWin(old(game.guesses)));
                      && game.players == remaining
                      && game.currentPlayerIndex == old(game.currentPlayerIndex) % Max(1, |remaining|)
                      && game.State() == old(game.State()).(players := remaining, currentPlayerIndex := game.currentPlayerIndex)
                      && games == (if remaining == [] then old(games) - {gid} else old(games))
                      && playerTimers == Armed(old(playerTimers) - {socketId}, gid, next, TurnSeconds)
                      && log == old(log) + [notice] + Nudge(next))
    {
      if socketId in players && players[socketId].gameId in games {
        var gid := players[socketId].gameId;
        var game := games[gid];
        var player := FindById(game.players, socketId);
        Vacate(socketId, gid, game, Emit(ToRoomExcept(gid, socketId), OpponentDisconnected(NameOrFallback(player))));
      } else {
        ClearPlayerTimer(socketId);
      }
      if socketId in players {
        DropEntry(socketId);
      }
    }
  }
}
