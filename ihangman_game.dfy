/** The round engine of the app: one round's state, started from the word repository. */
module IHangman {
  import opened Base
  import opened Catalog
  import opened GameRules
  import opened Words

  class IHangmanGame {
    /** The repository the game draws its words from (the app's shared instance). */
    const wordManager: WordManager

    var currentWord: string
    var guessedLetters: set<char>
    var wrongGuesses: int
    const maxWrongGuesses: int := MaxWrongGuesses

    /** The round invariant: the wrong guesses are the guessed characters absent from the word. */
    predicate Valid()
      reads this
    {
      Consistent(State())
    }

    /** The state of the round as a value. */
    function State(): Round
      reads this
    {
      Round(currentWord, guessedLetters, wrongGuesses)
    }

    /** `displayWord`: one character per letter plus separators; for a word without `_`
        it shows no `_` exactly when the round is won. */
    function DisplayWord(): (r: string)
      reads this
      ensures |currentWord| > 0 ==> |r| == 2 * |currentWord| - 1
      ensures '_' !in currentWord ==> ('_' !in r <==> IsGameWon())
    {
      if '_' !in currentWord then
        WonIffFullyRevealed(currentWord, guessedLetters);
        Display(currentWord, guessedLetters)
      else
        Display(currentWord, guessedLetters)
    }

    /** `isGameWon`: every letter other than a space has been guessed. */
    predicate IsGameWon()
      reads this
      ensures IsGameWon() <==> Letters(currentWord) <= guessedLetters
    {
      IsWon(currentWord, guessedLetters)
    }

    /** `isGameOver`: all letters guessed, or six wrong guesses; a valid round that is over
        but not won has six distinct missed characters. */
    predicate IsGameOver()
      reads this
      ensures IsGameOver() <==> Letters(currentWord) <= guessedLetters || wrongGuesses >= maxWrongGuesses
      ensures Valid() && IsGameOver() && !IsGameWon() ==>
                |Misses(currentWord, guessedLetters)| >= maxWrongGuesses
    {
      if Valid() then
        LostMeansSixMisses(State());
        IsOver(currentWord, guessedLetters, wrongGuesses)
      else
        IsOver(currentWord, guessedLetters, wrongGuesses)
    }

    /** A game before its first round: empty word, nothing guessed. */
    constructor (manager: WordManager)
      ensures wordManager == manager
      ensures State() == NewRound("")
      ensures Valid()
    {
      wordManager := manager;
      currentWord := "";
      guessedLetters := {};
      wrongGuesses := 0;
    }

    /** A fresh round over a word drawn from the current category. */
    method StartNewGame()
      modifies this
      ensures State() == NewRound(currentWord)
      ensures CanDraw(wordManager.currentCategory, currentWord)
      ensures Valid()
    {
      currentWord := wordManager.GetRandomWord();
      guessedLetters := {};
      wrongGuesses := 0;
    }

    /** Selects the category by name, then starts a round exactly as `StartNewGame` does. */
    method StartNewGameIn(category: string)
      modifies this, wordManager
      ensures wordManager.categories == old(wordManager.categories)
      ensures wordManager.currentCategory == (match FirstNamed(wordManager.categories, category)
                                              case Some(c) => Some(c)
                                              case None => old(wordManager.currentCategory))
      ensures old(wordManager.Valid()) ==> wordManager.Valid()
      ensures State() == NewRound(currentWord)
      ensures CanDraw(wordManager.currentCategory, currentWord)
      ensures Valid()
    {
      wordManager.SetCurrentCategory(category);
      StartNewGame();
    }

    method GetCurrentCategory() returns (cur: Option<WordCategory>)
      ensures cur == wordManager.currentCategory
    {
      cur := wordManager.GetCurrentCategory();
    }

    method GetAllCategories() returns (cats: seq<WordCategory>)
      ensures cats == wordManager.categories
    {
      cats := wordManager.GetAllCategories();
    }

    /** Records a guess. A repeated guess changes nothing and answers false; a new one is
        recorded, answers whether it occurs in the word, and counts as wrong when it does not. */
    method GuessLetter(letter: char) returns (correct: bool)
      modifies this
      ensures (State(), correct) == Guess(old(State()), letter)
      ensures currentWord == old(currentWord)
      ensures letter in old(guessedLetters) ==> !correct && State() == old(State())
      ensures letter !in old(guessedLetters) ==> guessedLetters == old(guessedLetters) + {letter}
      ensures letter !in old(guessedLetters) && letter !in currentWord ==>
                !correct && wrongGuesses == old(wrongGuesses) + 1
      ensures letter !in old(guessedLetters) && letter in currentWord ==>
                correct && wrongGuesses == old(wrongGuesses)
      ensures old(Valid()) ==> Valid()
    {
      if Valid() {
        GuessKeepsConsistent(State(), letter);
      }
      if letter in guessedLetters {
        return false;
      }
      guessedLetters := guessedLetters + {letter};
      if letter !in currentWord {
        wrongGuesses := wrongGuesses + 1;
        return false;
      }
      return true;
    }
  }
}
