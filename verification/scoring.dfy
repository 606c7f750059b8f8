/** The rules of Bulls and Cows that `Game` relies on: which strings are
    secrets or acceptable guesses, and how a guess is scored as `a`
    (right digit, right place) and `b` (right digit, wrong place). */
module Scoring {

  /** The result of one guess: `a` exact matches, `b` misplaced digits. */
  datatype Score = Score(a: nat, b: nat)

  predicate IsDigit(c: char) {
    '0' <= c <= '9'
  }

  /** A code: exactly four decimal digits, pairwise distinct. Every secret
      has this form, and so does every guess that is scored. */
  predicate IsValidCode(s: string) {
    && |s| == 4
    && (forall i :: 0 <= i < |s| ==> IsDigit(s[i]))
    && (forall i, j :: 0 <= i < j < |s| ==> s[i] != s[j])
  }

  /** The characters occurring in `s` (JavaScript's `new Set(s)`). */
  function CharSet(s: string): set<char> {
    set c | c in s
  }

  /** The guess check of `makeGuess` as `src/game-logic.js` writes it: the string
      matches `/^\d{4}$/` (JavaScript's `\d` is ASCII only and `$` without
      the `m` flag anchors at the very end), and the Set of its characters
      has size 4. */
  predicate PassesGuessCheck(s: string) {
    && |s| == 4
    && (forall i :: 0 <= i < |s| ==> IsDigit(s[i]))
    && |CharSet(s)| == 4
  }

  lemma {:induction false} CharSetSize(s: string)
    ensures |CharSet(s)| <= |s|
    ensures (forall i, j :: 0 <= i < j < |s| ==> s[i] != s[j]) ==> |CharSet(s)| == |s|
  {
    if s != [] {
      var init := s[..|s| - 1];
      CharSetSize(init);
      assert CharSet(s) == CharSet(init) + {s[|s| - 1]} by {
        forall c | c in s ensures c in CharSet(init) || c == s[|s| - 1] {
          var i :| 0 <= i < |s| && s[i] == c;
          if i < |s| - 1 { assert init[i] == c; }
        }
      }
      if forall i, j :: 0 <= i < j < |s| ==> s[i] != s[j] {
        assert s[|s| - 1] !in CharSet(init);
      }
    }
  }

  /** The guess validation of `makeGuess` accepts exactly the codes. */
  lemma GuessCheckIsValidCode(s: string)
    ensures PassesGuessCheck(s) <==> IsValidCode(s)
  {
    CharSetSize(s);
    if |s| == 4 && !(forall i, j :: 0 <= i < j < |s| ==> s[i] != s[j]) {
      var i, j :| 0 <= i < j < |s| && s[i] == s[j];
      var rest := s[..j] + s[j + 1..];
      assert CharSet(s) == CharSet(rest) by {
        forall c | c in s ensures c in rest {
          var k :| 0 <= k < |s| && s[k] == c;
          if k < j { assert rest[k] == c; }
          else if k == j { assert rest[i] == c; }
          else { assert rest[k - 1] == c; }
        }
      }
      CharSetSize(rest);
    }
  }

  /** Number of positions below `n` where guess and target hold the same digit. */
  function ExactBelow(guess: string, target: string, n: nat): nat
    requires n <= |guess| && n <= |target|
  {
    if n == 0 then 0
    else ExactBelow(guess, target, n - 1) + (if guess[n - 1] == target[n - 1] then 1 else 0)
  }

  /** Number of positions below `n` whose guess digit is not the target's
      digit there but occurs somewhere in the target. */
  function MisplacedBelow(guess: string, target: string, n: nat): nat
    requires n <= |guess| && n <= |target|
  {
    if n == 0 then 0
    else MisplacedBelow(guess, target, n - 1)
         + (if guess[n - 1] != target[n - 1] && guess[n - 1] in target then 1 else 0)
  }

  /** Number of positions below `n` whose guess digit occurs in the target. */
  function PresentBelow(guess: string, target: string, n: nat): nat
    requires n <= |guess|
  {
    if n == 0 then 0
    else PresentBelow(guess, target, n - 1) + (if guess[n - 1] in target then 1 else 0)
  }

  /** The score of a four-character guess against a four-character secret. */
  function Scored(guess: string, target: string): Score
    requires |guess| == 4 && |target| == 4
  {
    Score(ExactBelow(guess, target, 4), MisplacedBelow(guess, target, 4))
  }

  lemma {:induction false} ExactPlusMisplacedIsPresent(guess: string, target: string, n: nat)
    requires n <= |guess| && n <= |target|
    ensures ExactBelow(guess, target, n) + MisplacedBelow(guess, target, n)
            == PresentBelow(guess, target, n) <= n
  {
    if n > 0 {
      ExactPlusMisplacedIsPresent(guess, target, n - 1);
      assert guess[n - 1] == target[n - 1] ==> guess[n - 1] in target;
    }
  }

  /** A score never exceeds four in total, and `a + b` counts the guess
      positions whose digit occurs in the secret. */
  lemma ScoreBound(guess: string, target: string)
    requires |guess| == 4 && |target| == 4
    ensures Scored(guess, target).a + Scored(guess, target).b == PresentBelow(guess, target, 4)
    ensures Scored(guess, target).a + Scored(guess, target).b <= 4
  {
    ExactPlusMisplacedIsPresent(guess, target, 4);
  }

  lemma {:induction false} ExactBelowAll(guess: string, target: string, n: nat)
    requires n <= |guess| && n <= |target|
    ensures ExactBelow(guess, target, n) <= n
    ensures ExactBelow(guess, target, n) == n <==> guess[..n] == target[..n]
  {
    if n > 0 {
      ExactBelowAll(guess, target, n - 1);
      assert guess[..n] == guess[..n - 1] + [guess[n - 1]];
      assert target[..n] == target[..n - 1] + [target[n - 1]];
      if guess[..n] == target[..n] {
        assert guess[..n - 1] == guess[..n][..n - 1];
        assert target[..n - 1] == target[..n][..n - 1];
        assert guess[n - 1] == guess[..n][n - 1];
      }
    }
  }

  /** Four exact matches happen exactly when the guess is the secret. */
  lemma FourExactIffEqual(guess: string, target: string)
    requires |guess| == 4 && |target| == 4
    ensures Scored(guess, target).a == 4 <==> guess == target
    ensures Scored(guess, target).a == 4 ==> Scored(guess, target).b == 0
  {
    ExactBelowAll(guess, target, 4);
    assert guess[..4] == guess && target[..4] == target;
    ExactPlusMisplacedIsPresent(guess, target, 4);
  }

  lemma {:induction false} ExactBelowSymmetric(guess: string, target: string, n: nat)
    requires n <= |guess| && n <= |target|
    ensures ExactBelow(guess, target, n) == ExactBelow(target, guess, n)
  {
    if n > 0 {
      ExactBelowSymmetric(guess, target, n - 1);
    }
  }

  /** One more element that is new to `before` adds one to the common part
      with `other` exactly when `other` has it. */
  lemma CommonGrows(before: set<char>, c: char, other: set<char>)
    requires c !in before
    ensures |(before + {c}) * other| == |before * other| + (if c in other then 1 else 0)
  {
    if c in other {
      assert (before + {c}) * other == before * other + {c};
    } else {
      assert (before + {c}) * other == before * other;
    }
  }

  /** In a string without repeats, no character occurs before its own position. */
  lemma LastIsNew(s: string, n: nat)
    requires 0 < n <= |s|
    requires forall i, j :: 0 <= i < j < |s| ==> s[i] != s[j]
    ensures s[n - 1] !in s[..n - 1]
  {
  }

  lemma {:induction false} PresentIsCommonDigits(guess: string, target: string, n: nat)
    requires n <= |guess|
    requires forall i, j :: 0 <= i < j < |guess| ==> guess[i] != guess[j]
    ensures PresentBelow(guess, target, n) == |CharSet(guess[..n]) * CharSet(target)|
  {
    if n == 0 {
      assert CharSet(guess[..0]) == {};
    } else {
      PresentIsCommonDigits(guess, target, n - 1);
      var c := guess[n - 1];
      assert CharSet(guess[..n]) == CharSet(guess[..n - 1]) + {c} by {
        assert guess[..n] == guess[..n - 1] + [c];
      }
      LastIsNew(guess, n);
      CommonGrows(CharSet(guess[..n - 1]), c, CharSet(target));
    }
  }

  /** For two codes the score does not depend on which one is the secret:
      with distinct digits on both sides no digit is counted twice. */
  lemma ScoreIsSymmetric(guess: string, target: string)
    requires IsValidCode(guess) && IsValidCode(target)
    ensures Scored(guess, target) == Scored(target, guess)
  {
    ExactBelowSymmetric(guess, target, 4);
    ExactPlusMisplacedIsPresent(guess, target, 4);
    ExactPlusMisplacedIsPresent(target, guess, 4);
    PresentIsCommonDigits(guess, target, 4);
    PresentIsCommonDigits(target, guess, 4);
    assert guess[..4] == guess && target[..4] == target;
    assert CharSet(guess) * CharSet(target) == CharSet(target) * CharSet(guess);
  }

  /** The worked example: secret "1357", guess "1234" scores one exact
      match ('1') and one misplaced digit ('3'). */
  lemma WorkedExample()
    ensures Scored("1234", "1357") == Score(1, 1)
  {
  }
}
