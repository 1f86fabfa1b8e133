# iHangman game core in Dafny

A model of the game and data logic of the iHangman app, a word-guessing ("hangman") game
with themed word categories (Brazilian football clubs and players by default). The model
covers the two sequential components that hold that logic:

- **the word repository** (`WordManager`): it holds an ordered list of `WordCategory`
  records and an optional current category. It loads the list from a decoded word file, or
  falls back to a built-in 17-word category. It selects a category by name or at random,
  draws a random word with the fixed fallback `"PALMEIRAS"`, and counts the words;
- **the round engine** (`IHangmanGame`, and its older standalone twin `HangmanGame`): it
  holds the current word, the set of guessed characters and the wrong-guess count (at most
  `maxWrongGuesses = 6` before the round is lost). It derives the masked display, "won" and
  "over" from that state.

Files and modules:

| file | module | models |
|---|---|---|
| `base.dfy` | `Base` | Swift's `Optional`, `??`, `first` and `randomElement()` |
| `word_category.dfy` | `Catalog` | the `WordCategory` record (`nome`, `icone`, `palavras`) |
| `word_manager.dfy` | `Words` | `WordManager` as a class, with the pure search, draw and count functions beside it |
| `game_rules.dfy` | `GameRules` | the round logic both engines share: `displayWord`, `isGameWon`, `isGameOver`, the guess step and its invariant |
| `ihangman_game.dfy` | `IHangman` | `IHangmanGame` as a class over a `WordManager` |
| `hangman_game.dfy` | `Hangman` | `HangmanGame` as a class over its fixed word list |

How the pieces are modelled:

- Both engines and the repository are classes whose methods update their fields in place.
  Each class has a `Valid()` invariant that every method keeps:
  - for an engine, `wrongGuesses` equals the number of guessed characters that do not occur
    in `currentWord`;
  - for the repository, a selected category is one of the loaded categories, and some
    category is selected whenever any is loaded.
- Both engines' `GuessLetter` methods are specified by the same pure step
  `GameRules.Guess`. This proves that their guessing logic is the same. What distinguishes
  the engines is the word source: a `WordManager` for one, the fixed list for the other. A
  lemma shows that the fixed list is exactly the repository's built-in category.
- `randomElement()` is a nondeterministic choice (`Base.RandomElement`). Its result is only
  known to be some element of the sequence, or `None` for an empty one.
- The file load is an input `Option<seq<WordCategory>>`. `None` stands for a missing file
  or a failed decode.
- The `WordManager.shared` singleton is an explicit object. The `IHangmanGame` constructor
  receives it.
- Characters are compared exactly.
- Loading and selection keep what they are given, with no clean-up:
  - words and guesses are never converted to upper case;
  - a decoded file with an empty category list is kept as it is, leaving no categories and
    no current category (every draw then gives `"PALMEIRAS"`);
  - categories with empty word lists are accepted;
  - `setRandomCategory` on an empty category list clears the selection.
- A round is over once the wrong guesses reach six or more (`>=`).
- Guessing a space is matched against the word like any other character, so it is a
  correct guess for a phrase such as `"SAO PAULO"` and a wrong one for a single word.
- An empty current word counts as won, because `allSatisfy` holds vacuously. Such a word is
  the initial state before the first round, and it could also come from a word file
  containing `""`.

## Model

| member | source | states |
|---|---|---|
| `Base.First` | iHangmanApp/iHangmanApp/WordManager.swift:33 | `categories.first` is `nil` exactly for the empty list and is otherwise its first element |
| `Base.RandomElement` | iHangmanApp/iHangmanApp/WordManager.swift:46 | `randomElement()` gives `nil` exactly for an empty sequence and otherwise some element of it |
| `Words.FirstNamed` | iHangmanApp/iHangmanApp/WordManager.swift:63 | `first(where: nome == name)`: no result iff no category has that name; otherwise the category at some index whose name matches while every earlier one's does not |
| `Words.TotalWordsAppend` | iHangmanApp/iHangmanApp/WordManager.swift:72-74 | the `reduce` word count is additive over concatenated category lists |
| `Words.TotalWords` | iHangmanApp/iHangmanApp/WordManager.swift:73 | the `reduce` left fold equals the length of the flattened list of all words |
| `Words.AllWordsSnoc` | iHangmanApp/iHangmanApp/WordManager.swift:73 | flattening a category list with one more category at the end appends that category's words, the step of the fold |
| `Words.CategoryWithinTotal` | iHangmanApp/iHangmanApp/WordManager.swift:72-74 | no single category holds more words than the total count |
| `Words.DefaultCategoryShape` | iHangmanApp/iHangmanApp/WordManager.swift:77-93 | the fallback category is "Futebol Brasileiro" with 17 non-empty words, total count 17, and contains the fallback word |
| `Words.WordManager.constructor` | iHangmanApp/iHangmanApp/WordManager.swift:17-19 | initialisation loads the words, so the new repository is in the state `LoadWords` gives and is valid |
| `Words.WordManager.LoadWords` | iHangmanApp/iHangmanApp/WordManager.swift:23-38 | a decoded list becomes `categories` with its first element current (none for an empty list); a missing or undecodable file gives exactly the built-in category, current; the invariant holds after |
| `Words.WordManager.LoadDefaultWords` | iHangmanApp/iHangmanApp/WordManager.swift:77-93 | the categories become exactly the built-in one, which becomes current |
| `Words.WordManager.GetRandomWord` | iHangmanApp/iHangmanApp/WordManager.swift:41-47 | the word is a member of the current category's words when one is set and non-empty, otherwise `"PALMEIRAS"` |
| `Words.WordManager.GetRandomWordFrom` | iHangmanApp/iHangmanApp/WordManager.swift:49-52 | the word belongs to the first category with that name when its list is non-empty; otherwise it is a possible result of `GetRandomWord` |
| `Words.WordManager.GetAllCategories` | iHangmanApp/iHangmanApp/WordManager.swift:54-56 | returns the stored categories and changes nothing |
| `Words.WordManager.GetCurrentCategory` | iHangmanApp/iHangmanApp/WordManager.swift:58-60 | returns the stored current category and changes nothing |
| `Words.WordManager.SetCurrentCategory` | iHangmanApp/iHangmanApp/WordManager.swift:62-66 | the current category becomes the first exact-name match, or stays as it was without one; `categories` is untouched; the invariant is kept |
| `Words.WordManager.SetRandomCategory` | iHangmanApp/iHangmanApp/WordManager.swift:68-70 | the current category becomes some member of `categories`, or none exactly when there are no categories; `categories` is untouched |
| `Words.WordManager.GetTotalWordsCount` | iHangmanApp/iHangmanApp/WordManager.swift:72-74 | the result is the number of words over all categories (the length of the flattened word list) |
| `GameRules.Display` | iHangmanApp/iHangmanApp/IHangmanGame.swift:17-19 | for an n-character word the display has 2n-1 characters (none for the empty word); position 2i shows the word's i-th character if it is a space or guessed and `_` otherwise; every odd position is a space |
| `GameRules.IsWon` | iHangmanApp/iHangmanApp/IHangmanGame.swift:21-23 | `isGameWon` holds iff every non-space character of the word has been guessed; the wrong-guess count is not an argument |
| `GameRules.IsOver` | iHangmanApp/iHangmanApp/IHangmanGame.swift:25-27 | `isGameOver`: below 6 wrong guesses it holds iff every non-space character has been guessed; from 6 wrong guesses on it always holds |
| `GameRules.WonIffFullyRevealed` | iHangmanApp/iHangmanApp/IHangmanGame.swift:17-23 | for a word without `_`, the round is won iff the display shows no `_` |
| `GameRules.NewRound` | iHangmanApp/iHangmanApp/IHangmanGame.swift:29-33 | a new round keeps the given word, has no guesses and no wrong guesses, and satisfies the round invariant |
| `GameRules.Guess` | iHangmanApp/iHangmanApp/IHangmanGame.swift:50-59 | a guess never changes the word and always leaves the letter among the guesses; it is correct iff new and in the word; a repeat changes nothing; a new miss adds exactly one wrong guess, anything else none |
| `GameRules.GuessKeepsConsistent` | iHangmanApp/iHangmanApp/IHangmanGame.swift:50-59 | one guess keeps the invariant that the wrong-guess count is the number of guessed characters absent from the word |
| `GameRules.GuessKeepsOver` | iHangmanApp/iHangmanApp/IHangmanGame.swift:25-27 | once a round is won or over, a further guess leaves it won or over (the engine itself does not refuse such guesses) |
| `GameRules.PlayKeepsConsistent` | iHangmanApp/iHangmanApp/IHangmanGame.swift:50-59 | any sequence of guesses keeps the word, makes the guesses exactly the old ones plus those given, and keeps the round invariant |
| `GameRules.LostMeansSixMisses` | iHangmanApp/iHangmanApp/IHangmanGame.swift:15-27 | in a consistent round the wrong guesses never exceed the guesses; a round over but not won has at least 6 distinct missed characters |
| `GameRules.ScenarioPele` | iHangmanApp/iHangmanApp/IHangmanGame.swift:17-59 | word "PELE" with guesses P, E, L, E: guesses {P, E, L}, no wrong guess, won, display "P E L E" |
| `GameRules.ScenarioVasco` | iHangmanApp/iHangmanApp/IHangmanGame.swift:21-59 | word "VASCO" with the six distinct misses X, Y, Z, W, Q, K: six wrong guesses, over and not won |
| `GameRules.PlayMisses` | iHangmanApp/iHangmanApp/IHangmanGame.swift:50-59 | from a new round, distinct guesses that all miss leave exactly those guesses and one wrong guess each |
| `IHangman.IHangmanGame.constructor` | iHangmanApp/iHangmanApp/IHangmanGame.swift:10-15 | a new game holds the given repository, an empty word, no guesses and no wrong guesses |
| `IHangman.IHangmanGame.DisplayWord` | iHangmanApp/iHangmanApp/IHangmanGame.swift:17-19 | the display of an n-letter word has 2n-1 characters; for a word without `_` it shows no `_` iff the round is won |
| `IHangman.IHangmanGame.IsGameWon` | iHangmanApp/iHangmanApp/IHangmanGame.swift:21-23 | won iff the guesses cover every non-space character of the current word |
| `IHangman.IHangmanGame.IsGameOver` | iHangmanApp/iHangmanApp/IHangmanGame.swift:25-27 | over iff the letters are covered or `wrongGuesses >= maxWrongGuesses`; in a valid round, over but not won means at least 6 distinct misses |
| `IHangman.IHangmanGame.StartNewGame` | iHangmanApp/iHangmanApp/IHangmanGame.swift:29-33 | the word is a possible result of the repository's `GetRandomWord`; guesses are emptied and wrong guesses reset to 0; the invariant holds |
| `IHangman.IHangmanGame.StartNewGameIn` | iHangmanApp/iHangmanApp/IHangmanGame.swift:35-40 | the repository's selection changes exactly as `SetCurrentCategory` does, then the round restarts as in `StartNewGame` over the new selection |
| `IHangman.IHangmanGame.GetCurrentCategory` | iHangmanApp/iHangmanApp/IHangmanGame.swift:42-44 | passes the repository's current category through |
| `IHangman.IHangmanGame.GetAllCategories` | iHangmanApp/iHangmanApp/IHangmanGame.swift:46-48 | passes the repository's categories through |
| `IHangman.IHangmanGame.GuessLetter` | iHangmanApp/iHangmanApp/IHangmanGame.swift:50-59 | the new state and answer are those of `Guess`: a repeat answers false and changes nothing; a new letter is inserted, and answers false with one more wrong guess if absent from the word, true with the count unchanged otherwise; the word never changes; the invariant is kept |
| `Hangman.HangmanGame.constructor` | HangmanGame.swift:10-13 | a new game has an empty word, no guesses and no wrong guesses |
| `Hangman.HangmanGame.DisplayWord` | HangmanGame.swift:15-17 | the display of an n-letter word has 2n-1 characters; for a word without `_` it shows no `_` iff the round is won |
| `Hangman.HangmanGame.IsGameWon` | HangmanGame.swift:19-21 | won iff the guesses cover every non-space character of the current word |
| `Hangman.HangmanGame.IsGameOver` | HangmanGame.swift:23-25 | over iff the letters are covered or `wrongGuesses >= maxWrongGuesses`; in a valid round, over but not won means at least 6 distinct misses |
| `Hangman.HangmanGame.StartNewGame` | HangmanGame.swift:27-31 | the word is one of the fixed 17 words; guesses are emptied and wrong guesses reset to 0; the invariant holds |
| `Hangman.HangmanGame.GuessLetter` | HangmanGame.swift:33-42 | the same step `Guess` as the app's engine, with the same repeat, miss and hit cases and the same invariant |
| `Hangman.WordsAreDefaultCategory` | HangmanGame.swift:3-8 | the fixed word list equals the repository's built-in category word for word |

## Data

The records, constants and invariants the members above are stated over:

| declaration | source | holds |
|---|---|---|
| `Catalog.WordCategory` | iHangmanApp/iHangmanApp/WordCategory.swift:11-15 | the `(nome, icone, palavras)` record |
| `Words.DefaultCategory` | iHangmanApp/iHangmanApp/WordManager.swift:79-88 | the built-in "Futebol Brasileiro" category and its 17 words |
| `Words.Fallback` | iHangmanApp/iHangmanApp/WordManager.swift:44-46 | the fallback word `"PALMEIRAS"` |
| `Words.WordManager.Valid` | iHangmanApp/iHangmanApp/WordManager.swift:14-15 | a selected category is a loaded one, and any loaded list has a selection |
| `Hangman.HangmanGame.words` | HangmanGame.swift:3-8 | the fixed 17-word list |
| `GameRules.MaxWrongGuesses` | iHangmanApp/iHangmanApp/IHangmanGame.swift:15 | the constant 6 |

## Left out

- The UIKit view controllers (game screen, category selection, home screen) are layout, buttons, alerts and navigation, with no game logic.
- The game screen refuses taps once the round is over. That guard belongs to the caller, not to the engine; `GameRules.GuessKeepsOver` shows what the engine does without it.
- Reading `words.json` from the app bundle and decoding it with `JSONDecoder` are file I/O and a library decoder. They are the `source` parameter of `LoadWords`.
- The `Codable` conformance and the `CategoriesContainer` wrapper are library serialisation. Only the record shape of `WordCategory` is kept.
- The `print` logging in the load paths has no effect on the state.
- The platform random generator is not modelled. Draws are specified by membership only, so uniformity is not stated.
- Swift `Character` is an extended grapheme cluster; the model uses Dafny's `char`.
- `wrongGuesses` is a Swift `Int`. The model uses an unbounded `int`. The invariant bounds it by the number of guessed characters, so 64-bit overflow cannot arise.
- The `private(set)` fields `currentWord`, `guessedLetters` and `wrongGuesses`, and the `private` fields `categories` and `currentCategory`, are public Dafny fields. Callers can read them directly, and the write protection is lost: a caller allowed to modify the object can assign them and break `Valid()`. The classes' own methods keep it.
