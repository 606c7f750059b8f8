# Guess (Bulls and Cows): the match engine and the room bookkeeping

This project models, in Dafny, the core of a two-player online game of
Bulls and Cows. Each room holds a secret of four distinct decimal digits. The
two players take turns guessing it. Every guess is scored as `a`, the digits
in the right place, and `b`, the digits present in the secret but in another
place. A guess with `a` = 4 wins. Every turn has a 60-second timer, and an
expired turn is recorded as a forfeit.

The model has five modules:

- `Wrappers` (`wrappers.dfy`): `Option`, `Result` and `Outcome`.
- `JsText` (`js_text.dfy`): ECMAScript's `String.prototype.trim`. The
  `joinGame` handler uses it to reject blank names and room ids and to
  normalise the stored name.
- `Scoring` (`scoring.dfy`): what a code is, the guess check of `makeGuess`,
  and the score of `calculateResult` as a specification, with its properties:
  - bounds;
  - four exact matches if and only if the guess is the secret;
  - symmetry between two codes;
  - a worked example.
- `GameLogic` (`game_logic.dfy`): the class `Game` of `src/game-logic.js`.
  - It is a Dafny class with the same six fields and one method per JavaScript
    method.
  - Each method's contract ties its new state to its old state.
  - `Valid()` is the invariant every method keeps: a roster of at most two, a
    turn pointer of 0 or 1, a valid secret, and a log whose entries are all
    scored against the current secret.
- `Server` (`server.dfy`): the module-level state of `server.js` as the
  class `Registry`.
  - Its fields are the maps `games`, `players` and `playerTimers`, plus two
    further fields: the queue of pending room cleanups scheduled by
    `handleGameOver`, and the log of everything the handlers send (`emit`,
    `to`, `except`) or change in channels (`join`, `leave`).
  - Each socket handler is one atomic method. Its contract gives the exact
    new maps and the exact events it appends.
  - A timer's callback is an explicit step: `FireTimer` for a turn timer and
    `FireCleanup` for a room cleanup.
  - `Math.random()` is a nondeterministic choice, and `Date.now()` is the
    parameter `now`.

## Model

| member | source | states |
|---|---|---|
| JsText.TrimShape | server.js:111-119 | `trim` removes a white-space prefix and a white-space suffix, and what is left neither starts nor ends with white space |
| JsText.TrimIsEmptyIffBlank | server.js:111-119 | a string trims to the empty string exactly when every character of it is white space |
| JsText.TrimIdempotent | server.js:129-130 | the trimmed name that is stored is unchanged by trimming again |
| Scoring.GuessCheckIsValidCode | src/game-logic.js:93-95 | the regular-expression and Set-size check accepts exactly the strings of four pairwise distinct decimal digits |
| Scoring.ScoreBound | src/game-logic.js:115-125 | `a + b` counts the guess digits present in the secret, so it never exceeds four |
| Scoring.FourExactIffEqual | src/game-logic.js:115-125 | `a` is 4 exactly when the guess is the secret, and then `b` is 0 |
| Scoring.ScoreIsSymmetric | src/game-logic.js:115-125 | for two codes, swapping guess and secret gives the same score |
| Scoring.WorkedExample | src/game-logic.js:115-125 | guessing 1234 against the secret 1357 scores one exact and one misplaced digit |
| GameLogic.WithoutId | src/game-logic.js:34 | the filtered roster holds exactly the entries whose id differs, is shorter when the id was present, and is unchanged otherwise |
| GameLogic.WithoutIdKeepsOrder | src/game-logic.js:34 | removal keeps the remaining players in their relative order |
| GameLogic.FindIndex | src/game-logic.js:36 | `findIndex` returns the first position with the id, or -1 exactly when the id is absent |
| GameLogic.FindById | src/game-logic.js:152 | `find` returns the first entry with the id, and nothing exactly when the id is absent |
| GameLogic.RemovalPointerMatchesIntent | src/game-logic.js:36-41 | the step back is dead code because it searches the filtered roster; with at most two players, the final pointer is the one the intended step back would give |
| GameLogic.ToggledTwice | src/game-logic.js:61-66 | with two players, a switch always changes the turn and two switches restore it |
| GameLogic.Game.IsGameOver | src/game-logic.js:128-132 | the log is non-empty and its last result has `a` = 4; for a valid game, exactly when the last guess was the secret |
| GameLogic.GameOverIffSecretGuessed | src/game-logic.js:128-132 | for a log scored against the secret, the game is over exactly when the last guess was the secret; a forfeit never ends it |
| GameLogic.Game.constructor | src/game-logic.js:2-9 | a new game: empty roster, empty log, pointer 0, no votes, not started, a valid secret |
| GameLogic.Game.GenerateNumber | src/game-logic.js:12-18 | the result is four pairwise distinct decimal digits |
| GameLogic.Game.AddPlayer | src/game-logic.js:21-30 | a full room is refused first, then a name used by another id; otherwise exactly the player is appended and nothing else changes |
| GameLogic.Game.RemovePlayer | src/game-logic.js:33-42 | every entry with the id is removed, and the pointer becomes the old pointer modulo the new roster size (at least 1); nothing else changes |
| GameLogic.Game.Start | src/game-logic.js:45-52 | a roster that is not two is refused with no change; otherwise the game is started and the returned player is the one the pointer designates |
| GameLogic.Game.GetCurrentPlayer | src/game-logic.js:55-58 | there is a current player exactly when the pointer is inside the roster, and it is the entry at the pointer |
| GameLogic.Game.SwitchPlayer | src/game-logic.js:61-66 | the pointer alternates only with exactly two players, nothing else changes, and the new current player is returned |
| GameLogic.Game.MakeGuess | src/game-logic.js:69-112 | the checks run in source order, and a refused guess changes nothing; a forfeit appends a (0, 0) record and passes the turn; a code appends its score and passes the turn unless `a` is 4 |
| GameLogic.Game.CalculateResult | src/game-logic.js:115-125 | the loop computes the score of the specification, and `a + b` is at most 4 |
| GameLogic.Game.RequestRestart | src/game-logic.js:135-138 | the vote is added, a repeated vote changes nothing, and the result is whether two ids have voted |
| GameLogic.Game.Reset | src/game-logic.js:141-148 | a new valid secret, an empty log, no votes, not started, a pointer of 0 or 1, and the same roster |
| GameLogic.Game.GetPlayerInfo | src/game-logic.js:151-159 | there is a view exactly for a roster member; it carries the first matching entry's name and says whether that id holds the turn |
| Server.BlankIsTrimmedEmpty | server.js:111-119 | `Blank` is the handler's test: the field is missing, or it trims to the empty string |
| Server.Registry.constructor | server.js:27-29 | the three maps start empty, with no pending cleanup and nothing sent |
| Server.Registry.Send | server.js:112 | an `emit` (or a channel `join`/`leave`) appends exactly its events to the log and changes nothing else |
| Server.Registry.SetEntry | server.js:130 | `players.set` maps the socket to the entry and keeps every other entry |
| Server.Registry.DropEntry | server.js:276 | `players.delete` removes the socket's entry and keeps every other entry |
| Server.Registry.ClearPlayerTimer | server.js:31-37 | the socket's timer is gone, every other timer is kept, and clearing twice is clearing once |
| Server.Registry.SetPlayerTimer | server.js:40-71 | the socket ends with exactly one new scheduled timer for the room; every other timer is kept |
| Server.Registry.MarkFired | server.js:43-70 | a fired timer stays in the map, no longer scheduled, because its callback does not delete it |
| Server.Registry.HandleGameOver | server.js:74-102 | every timer of the room's players is cleared; one `gameOver` event names the author of the last guess, the secret and the history; one cleanup is queued |
| Server.Registry.FireCleanup | server.js:95-101 | the oldest pending cleanup deletes its room only if the room still exists and has no restart vote |
| Server.Registry.AfterGuess | server.js:183-200 | after the announcement, either the game is over (handled as above) or the current player gets the turn and the only new timer |
| Server.Registry.Forfeit | server.js:47-63 | the timed-out player's forfeit is logged and announced under the name of its `players` entry; the game is not over, and the turn passes with a new timer of the same length |
| Server.Registry.FireTimer | server.js:43-67 | the callback acts only if the room exists and the timed-out socket holds the turn; otherwise only the fired mark changes |
| Server.Registry.RoomFor | server.js:121-126 | the existing room is returned; otherwise a fresh new game is registered under the id |
| Server.Registry.StartRoom | server.js:147-153 | when `start` accepts, the room is told, the first player gets the turn, and exactly one timer is added; when it refuses, nothing happens |
| Server.Registry.Admit | server.js:128-158 | a refused add sends only the error and adds no `players` entry; an accepted one records the entry and sends the join notices; the join that completes two players in a game not started starts it |
| Server.Registry.Enter | server.js:121-158 | the room exists afterwards, holding its old game with its secret, guesses and votes kept, or a fresh one; the trimmed name is admitted or refused as `addPlayer` decides; the join that completes two players starts the game and arms one timer; no other room or cleanup changes |
| Server.Registry.JoinGame | server.js:108-159 | a blank name, then a blank room id, is reported with only the log changing and no game writable; otherwise the join is `Enter` with the trimmed name |
| Server.Registry.Judge | server.js:178 | a refused guess changes nothing; an accepted one is the caller's log entry, and the game is over exactly when the guess was the secret |
| Server.Registry.Play | server.js:176-204 | the caller's timer is cleared first and stays cleared on refusal; a refusal is reported; an accepted guess is announced and followed by game over or by the next turn |
| Server.Registry.MakeGuess | server.js:162-205 | an unjoined socket, then a vanished room, is reported with no other change; otherwise the guess is played in the socket's room |
| Server.Registry.RestartRoom | server.js:234-241 | the game is reset; with two players it is started and announced with one new timer, otherwise `start` throws and nothing is sent |
| Server.Registry.Ballot | server.js:222-226 | the requester's timer is cleared, the vote recorded and the requester told to wait |
| Server.Registry.Vote | server.js:222-241 | a requester missing from the roster makes the handler throw after its vote is recorded; otherwise the room is told, and only a vote set of two resets and restarts |
| Server.Registry.RestartGame | server.js:208-242 | an unjoined socket, then a vanished room, is reported with no other change; otherwise the vote is cast in the socket's room |
| Server.Registry.RemoveFromRoom | server.js:259 | the room's game loses the player, as `removePlayer` promises |
| Server.Registry.SettleRoom | server.js:261-272 | an emptied room is deleted; in a started game that is not over, the current player is told and gets the only new timer |
| Server.Registry.Vacate | server.js:252-273 | the leaver's timer is cleared, the room told, the player removed and the room settled |
| Server.Registry.Farewell | server.js:275-277 | the socket leaves the channel, loses its `players` entry and is sent back to waiting |
| Server.Registry.ExitGame | server.js:245-278 | an unjoined socket changes nothing; otherwise the timer is cleared, the room told under the name read before removal, the player removed, the room settled and the entry dropped |
| Server.Registry.Disconnect | server.js:281-317 | the timer is cleared even for an unjoined socket; a joined one is removed from its room as on exit, and nothing is sent to it |

## Left out

- Transport and hosting are not modelled: Express, static files, the HTTP
  route, socket connection set-up and console logging. Only the effect of
  `emit`, `to`, `except`, `join` and `leave` is kept, as entries of the
  event log.
- `public/app.js`, the browser client, is not part of this model.
- Timers are not real. A turn timer is an entry of `playerTimers` with a
  `scheduled` flag, and `FireTimer` may be applied to any scheduled one.
  Pending room cleanups form a queue consumed in order by `FireCleanup`.
  Time itself and the 60-second and 5-second delays are not modelled.
- GameLogic.Game.GenerateNumber: a draw of a digit already in the set leaves the set
  unchanged, so only the draws that add a digit are represented. No claim of
  uniformity is made.
- GameLogic.Game.CalculateResult: modelled only for four-character guesses. That is the
  only way `makeGuess` calls it.
- Payloads that are not strings (a number as a name, a missing guess) are
  not modelled. Names and room ids are `Option<string>`, and guesses are
  strings.
- Server.Registry.RestartGame: an exception that escapes the handler is
  returned as a `Completion`. Node's handling of the uncaught exception, and
  any effect on the process, are not modelled.
- Server.Registry.Disconnect: `server.js` tells the room after the removal,
  and `exitGame` tells it before. Both are modelled through `Vacate`, which
  logs the notice before the removal. The event log cannot tell the two
  orders apart.

## Notes on the code

Behaviour of the code worth knowing:

- A winning guess is not terminal. `makeGuess` does not check `isGameOver`,
  so the current player may keep guessing after a win.
- The step back in `removePlayer` never happens. It searches for the removed
  id in the roster that has just been filtered.
- `isGameStarted` is never cleared when a player leaves. A room that drops
  to one player and then fills again is not restarted by the join.
- A restart vote is an id kept in a set. A vote of a player who has left
  still counts, and `start` may then throw out of the `restartGame` handler.
- A client may send the forfeit value `"timeout"` as its guess. It is
  accepted as a forfeit of its own turn.
