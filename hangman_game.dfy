/** The earlier, standalone round engine: the same rules, words from a fixed list. */
module Hangman {
  import opened Base
  import opened GameRules
  import Words

  class HangmanGame {
    const words: seq<string> := [
      "PALMEIRAS", "FLAMENGO", "CORINTHIANS", "SAO PAULO",
      "SANTOS", "VASCO", "CRUZEIRO", "ATLETICO MINEIRO",
      "GREMIO", "INTERNACIONAL", "BOTAFOGO", "FLUMINENSE",
      "NEYMAR", "PELE", "ROMARIO", "RONALDO", "RIVALDO" ]

    var currentWord: string
    var guessedLetters: set<char>
    var wrongGuesses: int
    const maxWrongGuesses: int := MaxWrongGuesses

    /** The round invariant, as for the app's engine. */
    predicate Valid()
      reads this
    {
      Consistent(State())
    }

    function State(): Round
      reads this
    {
      Round(currentWord, guessedLetters, wrongGuesses)
    }

    /** `displayWord`: one character per letter plus separators; for a word without `_`
        it shows no `_` exactly when the round is won. */
    function DisplayWord(): (r: string)
      reads this
      ensures |currentWord| > 0 ==> |r| == 2 * |currentWord| - 1
      ensures '_' !in currentWord ==> ('_' !in r <==> IsGameWon())
    {
      if '_' !in currentWord then
        WonIffFullyRevealed(currentWord, guessedLetters);
        Display(currentWord, guessedLetters)
      else
        Display(currentWord, guessedLetters)
    }

    /** `isGameWon`: every letter other than a space has been guessed. */
    predicate IsGameWon()
      reads this
      ensures IsGameWon() <==> Letters(currentWord) <= guessedLetters
    {
      IsWon(currentWord, guessedLetters)
    }

    /** `isGameOver`: all letters guessed, or six wrong guesses; a valid round that is over
        but not won has six distinct missed characters. */
    predicate IsGameOver()
      reads this
      ensures IsGameOver() <==> Letters(currentWord) <= guessedLetters || wrongGuesses >= maxWrongGuesses
      ensures Valid() && IsGameOver() && !IsGameWon() ==>
                |Misses(currentWord, guessedLetters)| >= maxWrongGuesses
    {
      if Valid() then
        LostMeansSixMisses(State());
        IsOver(currentWord, guessedLetters, wrongGuesses)
      else
        IsOver(currentWord, guessedLetters, wrongGuesses)
    }

    constructor ()
      ensures State() == NewRound("")
      ensures Valid()
    {
      currentWord := "";
      guessedLetters := {};
      wrongGuesses := 0;
    }

    /** A fresh round over one of the fixed words (`"PALMEIRAS"` only if the list were empty). */
    method StartNewGame()
      modifies this
      ensures currentWord in words
      ensures State() == NewRound(currentWord)
      ensures Valid()
    {
      var pick := RandomElement(words);
      currentWord := pick.GetOr("PALMEIRAS");
      guessedLetters := {};
      wrongGuesses := 0;
    }

    /** The same guess as the app's engine: both are the one step `Guess`. */
    method GuessLetter(letter: char) returns (correct: bool)
      modifies this
      ensures (State(), correct) == Guess(old(State()), letter)
      ensures currentWord == old(currentWord)
      ensures letter in old(guessedLetters) ==> !correct && State() == old(State())
      ensures letter !in old(guessedLetters) ==> guessedLetters == old(guessedLetters) + {letter}
      ensures letter !in old(guessedLetters) && letter !in currentWord ==>
                !correct && wrongGuesses == old(wrongGuesses) + 1
      ensures letter !in old(guessedLetters) && letter in currentWord ==>
                correct && wrongGuesses == old(wrongGuesses)
      ensures old(Valid()) ==> Valid()
    {
      if Valid() {
        GuessKeepsConsistent(State(), letter);
      }
      if letter in guessedLetters {
        return false;
      }
      guessedLetters := guessedLetters + {letter};
      if letter !in currentWord {
        wrongGuesses := wrongGuesses + 1;
        return false;
      }
      return true;
    }
  }

  /** The fixed list is the repository's built-in category, word for word. */
  lemma WordsAreDefaultCategory(g: HangmanGame)
    ensures g.words == Words.DefaultCategory.palavras
  {
  }
}
