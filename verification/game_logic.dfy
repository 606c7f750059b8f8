/** The two-player match engine of `src/game-logic.js`: the roster, the turn
    pointer, the append-only guess log, the restart votes and the secret. */
module GameLogic {
  import opened Wrappers
  import opened Scoring

  /** A roster entry. The id is the socket id of the player's connection. */
  datatype Player = Player(id: string, name: string)

  /** One line of the guess log: who guessed, what (a code, or `TimeoutLabel`
      for a forfeited turn), the score, and the `Date.now()` of the guess. */
  datatype GuessRecord = GuessRecord(player: string, guess: string, result: Score, timestamp: int)

  /** The guess value a caller passes to forfeit the current turn. */
  const TimeoutGuess: string := "timeout"

  /** What the log records as the guess of a forfeited turn ("timed out"). */
  const TimeoutLabel: string := "\U{8D85}\U{65F6}"

  /** The errors that `addPlayer`, `start` and `makeGuess` throw. A guess from
      a roster member while the turn pointer is past the end of the roster
      fails when `makeGuess` reads `.id` of `undefined`: `CurrentPlayerUndefined`. */
  datatype AddError = RoomFull | NameTaken
  datatype StartError = NeedTwoPlayers
  datatype GuessError = NotInGame | CurrentPlayerUndefined | NotYourTurn | InvalidFormat

  /** The object `getPlayerInfo` returns. */
  datatype PlayerView = PlayerView(id: string, name: string, isCurrentPlayer: bool)

  /** All fields of a `Game`, as one value. */
  datatype GameState = GameState(
    players: seq<Player>,
    targetNumber: string,
    guesses: seq<GuessRecord>,
    currentPlayerIndex: nat,
    restartRequests: set<string>,
    isGameStarted: bool)

  function Max(x: int, y: int): int {
    if x < y then y else x
  }

  predicate InRoster(roster: seq<Player>, id: string) {
    exists i :: 0 <= i < |roster| && roster[i].id == id
  }

  /** The pointer designates a roster entry, and that entry has this id. */
  predicate IsTurnOf(roster: seq<Player>, index: nat, id: string) {
    index < |roster| && roster[index].id == id
  }

  /** Another player (a different id) already uses `p`'s name. */
  predicate NameClash(roster: seq<Player>, p: Player) {
    exists i :: 0 <= i < |roster| && roster[i].name == p.name && roster[i].id != p.id
  }

  /** What `addPlayer` does with `p`: the room-full check comes first, then
      the name check; otherwise `p` is accepted. */
  function AddOutcome(roster: seq<Player>, p: Player): Outcome<AddError> {
    if |roster| >= 2 then Fail(RoomFull)
    else if NameClash(roster, p) then Fail(NameTaken)
    else Pass
  }

  /** `roster.filter(p => p.id !== id)`. */
  function WithoutId(roster: seq<Player>, id: string): (r: seq<Player>)
    ensures forall p :: p in r ==> p in roster && p.id != id
    ensures forall p :: p in roster && p.id != id ==> p in r
    ensures !InRoster(r, id)
    ensures InRoster(roster, id) ==> |r| < |roster|
    ensures !InRoster(roster, id) ==> r == roster
  {
    if roster == [] then []
    else if roster[0].id == id then WithoutId(roster[1..], id)
    else [roster[0]] + WithoutId(roster[1..], id)
  }

  /** `r` is `s` with some elements left out, the others in their order. */
  ghost predicate IsSubsequence(r: seq<Player>, s: seq<Player>)
    decreases |s|
  {
    if r == [] then true
    else if s == [] then false
    else if r[0] == s[0] then IsSubsequence(r[1..], s[1..])
    else IsSubsequence(r, s[1..])
  }

  /** Removing a player keeps the remaining players in their relative order. */
  lemma {:induction false} WithoutIdKeepsOrder(roster: seq<Player>, id: string)
    ensures IsSubsequence(WithoutId(roster, id), roster)
  {
    if roster != [] {
      WithoutIdKeepsOrder(roster[1..], id);
    }
  }

  /** `roster.findIndex(p => p.id === id)`: the first position holding `id`,
      or -1 when there is none. */
  function FindIndex(roster: seq<Player>, id: string): (r: int)
    ensures -1 <= r < |roster|
    ensures r == -1 <==> !InRoster(roster, id)
    ensures r >= 0 ==> roster[r].id == id && forall k :: 0 <= k < r ==> roster[k].id != id
  {
    if roster == [] then -1
    else if roster[0].id == id then 0
    else
      var k := FindIndex(roster[1..], id);
      if k == -1 then -1 else k + 1
  }

  /** `roster.find(p => p.id === id)`: the first entry with this id. */
  function FindById(roster: seq<Player>, id: string): (r: Option<Player>)
    ensures r.Some? <==> InRoster(roster, id)
    ensures r.Some? ==> r.value in roster && r.value.id == id
    ensures r.Some? ==> r.value == roster[FindIndex(roster, id)]
  {
    var k := FindIndex(roster, id);
    if k == -1 then None else Some(roster[k])
  }

  /** The checks of `makeGuess`, in the order `src/game-logic.js` runs them: the error thrown, or None
      when the guess is accepted. The forfeit value skips the format check. */
  function GuessRefusal(roster: seq<Player>, index: nat, playerId: string, guess: string): Option<GuessError> {
    if !InRoster(roster, playerId) then Some(NotInGame)
    else if index >= |roster| then Some(CurrentPlayerUndefined)
    else if roster[index].id != playerId then Some(NotYourTurn)
    else if guess != TimeoutGuess && !IsValidCode(guess) then Some(InvalidFormat)
    else None
  }

  /** Lines 37-39 of `removePlayer`: move the pointer back one place when the
      removed player's position is at or before it. */
  function StepBack(removedIndex: int, index: nat): nat {
    if removedIndex != -1 && removedIndex <= index then Max(0, index - 1) else index
  }

  /** `removePlayer` looks up the removed player's position in the roster it
      has already filtered, so the step back never happens. Had it looked in
      the roster before filtering, the final pointer (after the modulo of
      line 41) would be the same for every roster of at most two players. */
  lemma RemovalPointerMatchesIntent(roster: seq<Player>, id: string, index: nat)
    requires |roster| <= 2 && index < 2
    ensures var kept := WithoutId(roster, id);
            && StepBack(FindIndex(kept, id), index) == index
            && StepBack(FindIndex(kept, id), index) % Max(1, |kept|)
               == StepBack(FindIndex(roster, id), index) % Max(1, |kept|)
  {
    var kept := WithoutId(roster, id);
    if InRoster(roster, id) {
      assert Max(1, |kept|) == 1;
    }
  }

  /** `switchPlayer`'s pointer update: it alternates only with two players. */
  function Toggled(rosterSize: nat, index: nat): nat {
    if rosterSize == 2 then (index + 1) % 2 else index
  }

  /** With two players, two turn switches come back to the same player. */
  lemma ToggledTwice(index: nat)
    requires index < 2
    ensures Toggled(2, index) != index && Toggled(2, Toggled(2, index)) == index
  {
  }

  /** A log entry agrees with the secret: it is a forfeit scored (0, 0), or
      a code scored against `target`. */
  predicate RecordAgrees(r: GuessRecord, target: string) {
    || (r.guess == TimeoutLabel && r.result == Score(0, 0))
    || (IsValidCode(r.guess) && |target| == 4 && r.result == Scored(r.guess, target))
  }

  predicate LogAgrees(log: seq<GuessRecord>, target: string) {
    forall i :: 0 <= i < |log| ==> RecordAgrees(log[i], target)
  }

  /** `isGameOver`: the log is not empty and its last result has `a` = 4. */
  predicate LastIsWin(log: seq<GuessRecord>) {
    |log| != 0 && log[|log| - 1].result.a == 4
  }

  /** For a log that agrees with the secret, the game is over exactly when
      the last guess was the secret itself; a forfeit never ends it. */
  lemma GameOverIffSecretGuessed(log: seq<GuessRecord>, target: string)
    requires IsValidCode(target) && LogAgrees(log, target)
    ensures LastIsWin(log) <==> |log| > 0 && log[|log| - 1].guess == target
  {
    if |log| > 0 {
      var last := log[|log| - 1];
      assert RecordAgrees(last, target);
      if last.guess == TimeoutLabel {
        assert !IsDigit(TimeoutLabel[0]);
        assert last.guess != target;
      } else {
        FourExactIffEqual(last.guess, target);
      }
    }
  }

  /** A Game of `src/game-logic.js`. */
  class Game {
    var players: seq<Player>
    var targetNumber: string
    var guesses: seq<GuessRecord>
    var currentPlayerIndex: nat
    var restartRequests: set<string>
    var isGameStarted: bool

    /** The roster never exceeds two, the pointer is 0 or 1, the secret is a
        code and every log entry is scored against the current secret. */
    ghost predicate Valid()
      reads this
    {
      && |players| <= 2
      && currentPlayerIndex < 2
      && IsValidCode(targetNumber)
      && LogAgrees(guesses, targetNumber)
    }

    ghost function State(): GameState
      reads this
    {
      GameState(players, targetNumber, guesses, currentPlayerIndex, restartRequests, isGameStarted)
    }

    constructor ()
      ensures Valid()
      ensures players == [] && guesses == [] && currentPlayerIndex == 0
      ensures restartRequests == {} && !isGameStarted
    {
      players := [];
      var secret := GenerateNumber();
      targetNumber := secret;
      guesses := [];
      currentPlayerIndex := 0;
      restartRequests := {};
      isGameStarted := false;
    }

    /** `generateNumber`: four random decimal digits, pairwise distinct, in
        the order they were first drawn. */
    static method GenerateNumber() returns (s: string)
      ensures IsValidCode(s)
    {
      var digits: seq<char> := [];
      while |digits| < 4
        invariant |digits| <= 4
        invariant forall i :: 0 <= i < |digits| ==> IsDigit(digits[i])
        invariant forall i, j :: 0 <= i < j < |digits| ==> digits[i] != digits[j]
        decreases 4 - |digits|
      {
        // A draw already in the set leaves it unchanged; only the draws that
        // add a digit are represented.
        UnusedDigitExists(digits);
        var d: char :| IsDigit(d) && d !in digits;
        digits := digits + [d];
      }
      s := digits;
    }

    static lemma UnusedDigitExists(digits: seq<char>)
      requires |digits| < 4
      ensures exists d :: IsDigit(d) && d !in digits
    {
      if '0' in digits && '1' in digits && '2' in digits && '3' in digits {
        CharSetSize(digits);
        var four := {'0', '1', '2', '3'};
        assert four <= CharSet(digits);
        assert |four| == 4;
        SubsetSize(four, CharSet(digits));
        assert false;
      }
    }

    static lemma {:induction false} SubsetSize(a: set<char>, b: set<char>)
      requires a <= b
      ensures |a| <= |b|
      decreases |b|
    {
      if a != {} {
        var x :| x in a;
        SubsetSize(a - {x}, b - {x});
      }
    }

    /** `addPlayer`: refuses a third player and a name already used by a
        different id; otherwise appends exactly `player`. */
    method AddPlayer(player: Player) returns (r: Outcome<AddError>)
      requires Valid()
      modifies this
      ensures Valid()
      ensures r == AddOutcome(old(players), player)
      ensures r.Pass? ==> State() == old(State()).(players := old(players) + [player])
      ensures r.Fail? ==> State() == old(State())
    {
      if |players| >= 2 {
        return Fail(RoomFull);
      }
      if NameClash(players, player) {
        return Fail(NameTaken);
      }
      players := players + [player];
      return Pass;
    }

    /** `removePlayer`: drops every entry with this id, keeps the others in
        order, and brings the pointer within the new roster. */
    method RemovePlayer(playerId: string)
      requires Valid()
      modifies this
      ensures Valid()
      ensures players == WithoutId(old(players), playerId)
      ensures currentPlayerIndex == old(currentPlayerIndex) % Max(1, |players|)
      ensures currentPlayerIndex < Max(1, |players|)
      ensures State() == old(State()).(players := players, currentPlayerIndex := currentPlayerIndex)
    {
      players := WithoutId(players, playerId);
      var removedIndex := FindIndex(players, playerId);
      currentPlayerIndex := StepBack(removedIndex, currentPlayerIndex);
      currentPlayerIndex := currentPlayerIndex % Max(1, |players|);
    }

    /** `start`: needs exactly two players; marks the game started, picks a
        random first player and returns it. */
    method Start() returns (r: Result<Player, StartError>)
      requires Valid()
      modifies this
      ensures Valid()
      ensures |old(players)| != 2 ==> r == Failure(NeedTwoPlayers) && State() == old(State())
      ensures |old(players)| == 2 ==>
                && players == old(players) && isGameStarted && currentPlayerIndex < 2
                && r == Success(players[currentPlayerIndex])
                && State() == old(State()).(isGameStarted := true, currentPlayerIndex := currentPlayerIndex)
    {
      if |players| != 2 {
        return Failure(NeedTwoPlayers);
      }
      isGameStarted := true;
      // Math.random() < 0.5 ? 0 : 1
      var coin: nat :| coin < 2;
      currentPlayerIndex := coin;
      var current := GetCurrentPlayer();
      r := Success(current.value);
    }

    /** `getCurrentPlayer`: `null` for an empty roster, `undefined` when the
        pointer is past the end, otherwise the player at the pointer. */
    function GetCurrentPlayer(): (r: Option<Player>)
      reads this
      ensures r.Some? <==> currentPlayerIndex < |players|
      ensures r.Some? ==> r.value in players && r.value == players[currentPlayerIndex]
    {
      if |players| == 0 then None
      else if currentPlayerIndex < |players| then Some(players[currentPlayerIndex])
      else None
    }

    /** `switchPlayer`: with exactly two players the turn passes to the other
        one; otherwise the pointer stays. Returns the new current player. */
    method SwitchPlayer() returns (current: Option<Player>)
      requires Valid()
      modifies this
      ensures Valid()
      ensures currentPlayerIndex == Toggled(|players|, old(currentPlayerIndex))
      ensures State() == old(State()).(currentPlayerIndex := currentPlayerIndex)
      ensures current == GetCurrentPlayer()
    {
      if |players| == 2 {
        currentPlayerIndex := (currentPlayerIndex + 1) % 2;
      }
      current := GetCurrentPlayer();
    }

    /** `makeGuess`. The checks run in the order of `src/game-logic.js` and a failed one changes
        nothing. An accepted guess appends exactly one record; a forfeit is
        scored (0, 0) and passes the turn, a code passes it unless it is
        the secret. */
    method MakeGuess(playerId: string, guess: string, now: int) returns (r: Result<Score, GuessError>)
      requires Valid()
      modifies this
      ensures Valid()
      ensures var refusal := GuessRefusal(old(players), old(currentPlayerIndex), playerId, guess);
              && (refusal.Some? ==> r == Failure(refusal.value))
              && (refusal.None? ==> r.Success?)
      ensures r.Failure? ==> State() == old(State())
      ensures IsTurnOf(old(players), old(currentPlayerIndex), playerId) && guess == TimeoutGuess ==>
                && r == Success(Score(0, 0))
                && guesses == old(guesses) + [GuessRecord(playerId, TimeoutLabel, Score(0, 0), now)]
                && currentPlayerIndex == Toggled(|players|, old(currentPlayerIndex))
      ensures IsTurnOf(old(players), old(currentPlayerIndex), playerId) && IsValidCode(guess) ==>
                && r == Success(Scored(guess, targetNumber))
                && guesses == old(guesses) + [GuessRecord(playerId, guess, r.value, now)]
                && currentPlayerIndex == (if r.value.a == 4 then old(currentPlayerIndex)
                                          else Toggled(|players|, old(currentPlayerIndex)))
      ensures r.Success? ==>
                State() == old(State()).(guesses := guesses, currentPlayerIndex := currentPlayerIndex)
    {
      if !InRoster(players, playerId) {
        return Failure(NotInGame);
      }
      var currentPlayer := GetCurrentPlayer();
      if currentPlayer.None? {
        return Failure(CurrentPlayerUndefined);
      }
      if currentPlayer.value.id != playerId {
        return Failure(NotYourTurn);
      }
      if guess == TimeoutGuess {
        guesses := guesses + [GuessRecord(playerId, TimeoutLabel, Score(0, 0), now)];
        var _ := SwitchPlayer();
        return Success(Score(0, 0));
      }
      GuessCheckIsValidCode(guess);
      if !PassesGuessCheck(guess) {
        return Failure(InvalidFormat);
      }
      var result := CalculateResult(guess);
      guesses := guesses + [GuessRecord(playerId, guess, result, now)];
      if result.a != 4 {
        var _ := SwitchPlayer();
      }
      return Success(result);
    }

    /** `calculateResult`: the score of a four-character guess against the
        secret. */
    method CalculateResult(guess: string) returns (r: Score)
      requires Valid() && |guess| == 4
      ensures r == Scored(guess, targetNumber)
      ensures r.a + r.b <= 4
    {
      var a, b := 0, 0;
      for i := 0 to 4
        invariant a == ExactBelow(guess, targetNumber, i)
        invariant b == MisplacedBelow(guess, targetNumber, i)
      {
        if guess[i] == targetNumber[i] {
          a := a + 1;
        } else if guess[i] in targetNumber {
          b := b + 1;
        }
      }
      r := Score(a, b);
      ScoreBound(guess, targetNumber);
    }

    /** `isGameOver`: the last guess scored four exact matches. In a valid
        game that happens exactly when the last guess was the secret. */
    predicate IsGameOver(): (over: bool)
      reads this
      ensures over ==> |guesses| > 0
      ensures Valid() ==> (over <==> |guesses| > 0 && guesses[|guesses| - 1].guess == targetNumber)
    {
      assert Valid() ==> (LastIsWin(guesses) <==> |guesses| > 0 && guesses[|guesses| - 1].guess == targetNumber) by {
        if Valid() {
          GameOverIffSecretGuessed(guesses, targetNumber);
        }
      }
      LastIsWin(guesses)
    }

    /** `requestRestart`: records the vote (a repeated vote changes nothing)
        and reports whether two distinct ids have now voted. */
    method RequestRestart(playerId: string) returns (ready: bool)
      requires Valid()
      modifies this
      ensures Valid()
      ensures restartRequests == old(restartRequests) + {playerId}
      ensures playerId in old(restartRequests) ==> restartRequests == old(restartRequests)
      ensures ready <==> |restartRequests| == 2
      ensures State() == old(State()).(restartRequests := restartRequests)
    {
      restartRequests := restartRequests + {playerId};
      ready := |restartRequests| == 2;
    }

    /** `reset`: a new secret, an empty log, no votes, not started, a random
        pointer; the roster is kept. */
    method Reset()
      requires Valid()
      modifies this
      ensures Valid()
      ensures IsValidCode(targetNumber)
      ensures guesses == [] && restartRequests == {} && !isGameStarted
      ensures currentPlayerIndex < 2
      ensures players == old(players)
    {
      var secret := GenerateNumber();
      targetNumber := secret;
      guesses := [];
      restartRequests := {};
      // Math.random() < 0.5 ? 0 : 1
      var coin: nat :| coin < 2;
      currentPlayerIndex := coin;
      isGameStarted := false;
    }

    /** `getPlayerInfo`: the first roster entry with this id, and whether it
        holds the turn; `null` for an id not in the roster. */
    function GetPlayerInfo(playerId: string): (r: Option<PlayerView>)
      reads this
      ensures r.Some? <==> InRoster(players, playerId)
      ensures r.Some? ==> && r.value.id == playerId
                          && r.value.name == players[FindIndex(players, playerId)].name
                          && (r.value.isCurrentPlayer <==> IsTurnOf(players, currentPlayerIndex, playerId))
    {
      match FindById(players, playerId)
      case None => None
      case Some(p) =>
        var current := GetCurrentPlayer();
        Some(PlayerView(p.id, p.name, current.Some? && current.value.id == playerId))
    }
  }
}
