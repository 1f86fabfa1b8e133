/** The round logic that both game classes share, word for word: the derived views
    (`displayWord`, `isGameWon`, `isGameOver`) and the effect of one guess. Characters
    are compared exactly, with no change of case. */
module GameRules {

  /** `maxWrongGuesses`. */
  const MaxWrongGuesses: int := 6

  /** How one character of the word is shown: itself when it is a space or has been
      guessed, otherwise `_`. */
  function Mask(c: char, guessed: set<char>): char {
    if c in guessed || c == ' ' then c else '_'
  }

  /** `displayWord`: the masked characters joined with single spaces. */
  function Display(word: string, guessed: set<char>): (r: string)
    ensures |word| == 0 ==> r == ""
    ensures |word| > 0 ==> |r| == 2 * |word| - 1
    ensures forall i :: 0 <= i < |word| ==>
              r[2 * i] == (if word[i] == ' ' || word[i] in guessed then word[i] else '_')
    ensures forall k :: 0 <= k < |r| && k % 2 == 1 ==> r[k] == ' '
  {
    if |word| == 0 then ""
    else if |word| == 1 then [Mask(word[0], guessed)]
    else
      var rest := Display(word[1..], guessed);
      var r := [Mask(word[0], guessed), ' '] + rest;
      assert forall i :: 1 <= i < |word| ==> r[2 * i] == rest[2 * (i - 1)] && word[i] == word[1..][i - 1];
      assert forall k :: 2 <= k < |r| ==> r[k] == rest[k - 2];
      r
  }

  /** `isGameWon`: every character of the word is a space or has been guessed. */
  predicate IsWon(word: string, guessed: set<char>)
    ensures IsWon(word, guessed) <==> Letters(word) <= guessed
  {
    forall i :: 0 <= i < |word| ==> word[i] == ' ' || word[i] in guessed
  }

  /** `isGameOver`: won, or the wrong guesses have reached the maximum. Below six wrong
      guesses only full letter coverage ends the round; from six on it is always over. */
  predicate IsOver(word: string, guessed: set<char>, wrong: int)
    ensures wrong < MaxWrongGuesses ==> (IsOver(word, guessed, wrong) <==> Letters(word) <= guessed)
    ensures wrong >= MaxWrongGuesses ==> IsOver(word, guessed, wrong)
  {
    IsWon(word, guessed) || wrong >= MaxWrongGuesses
  }

  /** The characters of the word other than spaces. */
  function Letters(word: string): set<char> {
    set i | 0 <= i < |word| && word[i] != ' ' :: word[i]
  }

  /** The guessed characters that do not occur in the word. */
  function Misses(word: string, guessed: set<char>): set<char> {
    set c | c in guessed && c !in word
  }

  /** The state of one round: the word, the guessed characters, the wrong-guess count. */
  datatype Round = Round(word: string, guessed: set<char>, wrong: int)

  /** The round invariant: the count is the number of guessed characters not in the word. */
  predicate Consistent(s: Round) {
    s.wrong == |Misses(s.word, s.guessed)|
  }

  /** `startNewGame`: a fresh round over `word`. */
  function NewRound(word: string): (s: Round)
    ensures s.word == word && s.guessed == {} && s.wrong == 0
    ensures Consistent(s)
  {
    assert Misses(word, {}) == {};
    Round(word, {}, 0)
  }

  /** `guessLetter`: the new round and whether the guess was a new, correct one. */
  function Guess(s: Round, letter: char): (res: (Round, bool))
    ensures res.0.word == s.word
    ensures res.0.guessed == s.guessed + {letter}
    ensures res.1 <==> letter !in s.guessed && letter in s.word
    ensures letter in s.guessed ==> res.0 == s
    ensures letter !in s.guessed && letter !in s.word ==> res.0.wrong == s.wrong + 1
    ensures (letter in s.guessed || letter in s.word) ==> res.0.wrong == s.wrong
  {
    if letter in s.guessed then (s, false)
    else if letter !in s.word then (Round(s.word, s.guessed + {letter}, s.wrong + 1), false)
    else (Round(s.word, s.guessed + {letter}, s.wrong), true)
  }

  /** For a word without `_`, the round is won exactly when the display shows no `_`. */
  lemma WonIffFullyRevealed(word: string, guessed: set<char>)
    requires '_' !in word
    ensures IsWon(word, guessed) <==> '_' !in Display(word, guessed)
  {
    var d := Display(word, guessed);
    if IsWon(word, guessed) {
      forall k | 0 <= k < |d| ensures d[k] != '_' {
        if k % 2 == 0 {
          assert d[2 * (k / 2)] == word[k / 2];
        }
      }
    } else {
      var i :| 0 <= i < |word| && word[i] != ' ' && word[i] !in guessed;
      assert d[2 * i] == '_';
    }
  }

  /** One guess keeps the round invariant. */
  lemma GuessKeepsConsistent(s: Round, letter: char)
    requires Consistent(s)
    ensures Consistent(Guess(s, letter).0)
  {
    if letter !in s.guessed {
      var before := Misses(s.word, s.guessed);
      var after := Misses(s.word, s.guessed + {letter});
      if letter in s.word {
        assert after == before;
      } else {
        assert after == before + {letter};
        assert letter !in before;
      }
    }
  }

  /** Guessing never undoes a win, and a finished round stays finished. */
  lemma GuessKeepsOver(s: Round, letter: char)
    requires IsOver(s.word, s.guessed, s.wrong)
    ensures var t := Guess(s, letter).0; IsOver(t.word, t.guessed, t.wrong)
    ensures IsWon(s.word, s.guessed) ==> IsWon(Guess(s, letter).0.word, Guess(s, letter).0.guessed)
  {
  }

  /** A sequence of guesses, applied left to right. */
  function Play(s: Round, letters: seq<char>): Round
    decreases |letters|
  {
    if letters == [] then s else Play(Guess(s, letters[0]).0, letters[1..])
  }

  /** Any sequence of guesses keeps the word, collects every guessed character and
      keeps the round invariant. */
  lemma {:induction false} PlayKeepsConsistent(s: Round, letters: seq<char>)
    requires Consistent(s)
    ensures var t := Play(s, letters);
            t.word == s.word && t.guessed == s.guessed + (set c | c in letters) && Consistent(t)
    decreases |letters|
  {
    if letters == [] {
      assert (set c | c in letters) == {};
    } else {
      var s' := Guess(s, letters[0]).0;
      GuessKeepsConsistent(s, letters[0]);
      PlayKeepsConsistent(s', letters[1..]);
      assert (set c | c in letters) == {letters[0]} + set c | c in letters[1..];
    }
  }

  /** In a consistent round the wrong guesses never exceed the guesses, and a round
      that is over but not won has at least six distinct missed characters. */
  lemma LostMeansSixMisses(s: Round)
    requires Consistent(s)
    ensures s.wrong <= |s.guessed|
    ensures IsOver(s.word, s.guessed, s.wrong) && !IsWon(s.word, s.guessed) ==>
              |Misses(s.word, s.guessed)| >= MaxWrongGuesses
  {
    SubsetCardinality(Misses(s.word, s.guessed), s.guessed);
  }

  lemma {:induction false} SubsetCardinality(a: set<char>, b: set<char>)
    requires a <= b
    ensures |a| <= |b|
  {
    if a != {} {
      var x :| x in a;
      SubsetCardinality(a - {x}, b - {x});
    }
  }

  /** The word "PELE" guessed with P, E, L and a repeated E is won with no wrong guess.
      The literals are bound through `requires` for the reason given at `ScenarioVasco`. */
  lemma ScenarioPele(w: string, guesses: string)
    requires w == "PELE" && guesses == "PELE"
    ensures var t := Play(NewRound(w), guesses);
            t.guessed == {'P', 'E', 'L'} && t.wrong == 0 && IsWon(t.word, t.guessed) &&
            Display(t.word, t.guessed) == "P E L E"
  {
    var s0 := NewRound(w);
    var s1 := Guess(s0, 'P').0;
    assert s1 == Round(w, {'P'}, 0);
    var s2 := Guess(s1, 'E').0;
    assert s2 == Round(w, {'P', 'E'}, 0);
    var s3 := Guess(s2, 'L').0;
    assert s3 == Round(w, {'P', 'E', 'L'}, 0);
    var s4 := Guess(s3, 'E').0;
    assert s4 == s3;
    var g1 := guesses[1..];
    var g2 := g1[1..];
    var g3 := g2[1..];
    assert guesses[0] == 'P' && g1[0] == 'E' && g2[0] == 'L' && g3 == "E";
    assert Play(s3, g3) == s4 by { assert g3[1..] == []; }
    assert Play(s0, guesses) == Play(s1, g1) == Play(s2, g2) == Play(s3, g3);
    var d := Display(w, {'P', 'E', 'L'});
    assert d == "P E L E" by {
      assert |d| == 7;
      assert d[0] == 'P' && d[2] == 'E' && d[4] == 'L' && d[6] == 'E';
      assert d[1] == ' ' && d[3] == ' ' && d[5] == ' ';
    }
  }

  /** The word "VASCO" with six distinct wrong guesses is over and not won. */
  /** The literals are bound through `requires`: written into the postcondition directly,
      they make the solver unfold `Play` on literals beyond its resource limit. */
  lemma ScenarioVasco(w: string, guesses: string)
    requires w == "VASCO" && guesses == "XYZWQK"
    ensures var t := Play(NewRound(w), guesses);
            t.wrong == 6 && IsOver(t.word, t.guessed, t.wrong) && !IsWon(t.word, t.guessed)
  {
    assert forall i :: 0 <= i < |guesses| ==> guesses[i] !in w;
    assert forall i, j :: 0 <= i < j < |guesses| ==> guesses[i] != guesses[j];
    PlayMisses(w, guesses);
    var t := Play(NewRound(w), guesses);
    assert t.word[0] == 'V' && 'V' !in t.guessed;
  }

  /** Distinct guesses that all miss the word count one wrong guess each. */
  lemma {:induction false} PlayMisses(word: string, letters: seq<char>)
    requires forall i :: 0 <= i < |letters| ==> letters[i] !in word
    requires forall i, j :: 0 <= i < j < |letters| ==> letters[i] != letters[j]
    ensures Play(NewRound(word), letters) == Round(word, (set c | c in letters), |letters|)
  {
    PlayMissesFrom(NewRound(word), letters);
  }

  lemma {:induction false} PlayMissesFrom(s: Round, letters: seq<char>)
    requires forall i :: 0 <= i < |letters| ==> letters[i] !in s.word && letters[i] !in s.guessed
    requires forall i, j :: 0 <= i < j < |letters| ==> letters[i] != letters[j]
    ensures Play(s, letters) == Round(s.word, s.guessed + (set c | c in letters), s.wrong + |letters|)
    decreases |letters|
  {
    if letters == [] {
      assert (set c | c in letters) == {};
    } else {
      var s' := Guess(s, letters[0]).0;
      PlayMissesFrom(s', letters[1..]);
      assert (set c | c in letters) == {letters[0]} + set c | c in letters[1..];
    }
  }
}
