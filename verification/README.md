# Hangman game state, modelled in Dafny

This project models the game logic of a console hangman game written in C#.
The logic lives in one record, `HangmanGameState`. It holds four things:

- the word to guess;
- the set of guessed letters that occur in the word;
- the set of guessed letters that do not;
- the number of tries left.

A guess produces the next state. Two predicates say whether the word has been
guessed and whether the game is over. `DisplayWord` prints a masked view of the
word. Around this sits `HangmanGame`. Its constructor builds the first state,
with 6 tries unless told otherwise. Its `Play` loop reads one line per turn.
The line is trimmed and lower-cased, and it becomes a guess only when what is
left is a single letter.

The model is functional. The state is an immutable datatype with `string`,
`set<char>` and `int` fields, and every operation is a pure function.

- `hangman.dfy` (module `Hangman`) holds the state, the transition, the two
  predicates and the mask. It also holds the partition invariant `Valid` and
  the lemmas about single guesses and about sequences of guesses.
- `text.dfy` (module `Text`) holds the character operations applied to a typed
  line: trimming, lower-casing and the letter test.
- `play.dfy` (module `Play`) holds one turn of the loop (`Step`) and the loop
  over a finite script of input lines (`Run`). It also holds the closing
  win/loss message (`Verdict`).
- `scenarios.dfy` (module `Scenarios`) plays whole games on the word "cat".

Four behaviours of the code are worth noting:

- Repeating a wrong letter is not free. It is recorded again, with no visible
  change, and costs another try. Only a repeated correct guess is a no-op.
  `RepeatWrongGuessCostsATry`, `GuessIsNoOpIff` and `CatLostOnRepeatedMiss`
  state this.
- `GuessLetter` does not lower-case its argument. Only the line read in `Play`
  is lower-cased. The letter is compared with the word exactly as given.
- The end of input is not a way out of the loop. `ReadLine` then returns
  `null`, which the loop treats like any invalid line, so nothing ever changes
  again (`EndOfInputChangesNothing`).
- A guess on its own can take the try counter below zero. Inside the loop the
  counter stays at or above zero when it starts there, because the loop stops
  as soon as it reaches zero (`Play.Run`).

One consequence is proved as `UnguessableNeverRevealed`. With letters
restricted to ASCII (see "## Left out"), the input check only ever yields
lower-case letters. So a word that holds any other character, such as a space,
a digit or an upper-case letter, can never be won through the loop. The game
can then only end in a loss. In the program, letters without case (such as
Chinese characters) pass the letter test unchanged, so this is a statement
about the ASCII model.

## Model

| member | source | states |
|---|---|---|
| `Hangman.NewGame` | Program.cs:47-50 | A new game has the given word and try count, and both guess sets are empty. It satisfies the partition invariant and masks every character. It is not over when the word is non-empty and the try count is positive. |
| `Hangman.Valid` | Program.cs:24-37 | The partition invariant: correct guesses occur in the word, and wrong guesses do not. It implies the two guess sets are disjoint. |
| `Hangman.GuessLetter` | Program.cs:24-37 | A letter of the word is added to the correct guesses; the wrong guesses and the tries stay the same. Any other letter is added to the wrong guesses and costs exactly one try; the correct guesses stay the same. The word never changes, and the partition invariant is preserved. |
| `Hangman.AllIn` | Program.cs:40 | True exactly when every character of the word is in the set. |
| `Hangman.IsWordGuessed` | Program.cs:40 | True exactly when the set of the word's characters is contained in the correct guesses. |
| `Hangman.IsGameOver` | Program.cs:39 | A guessed word ends the game, and so do zero or fewer tries. |
| `Hangman.Mask` | Program.cs:18-21 | The masked word has the word's length. Position i shows the word's character when it has been guessed, and the placeholder `_` otherwise. |
| `Hangman.MaskRevealsWord` | Program.cs:40 | A guessed word is shown in full. A mask without placeholders means the word is guessed. For a word without `_`, a mask equal to the word means the word is guessed, and the converse holds too. |
| `Hangman.RepeatCorrectGuessIsNoOp` | Program.cs:26-36 | Guessing a letter of the word a second time gives the same state as guessing it once. |
| `Hangman.RepeatWrongGuessCostsATry` | Program.cs:30-34 | Guessing a letter outside the word a second time leaves both sets as they were but costs one more try. |
| `Hangman.GuessIsNoOpIff` | Program.cs:24-37 | A guess leaves the state unchanged exactly when the letter is in the word and already among the correct guesses. |
| `Hangman.GuessAll` | Program.cs:24-37 | Under any sequence of guesses the word stays fixed, the tries never increase, and the partition invariant is preserved. |
| `Hangman.GuessAllEffect` | Program.cs:24-37 | After a sequence of guesses, the correct guesses have gained exactly the guessed letters that occur in the word. The wrong guesses have gained exactly the others. The tries have fallen by the number of guesses outside the word, repeats included. |
| `Text.IsWhiteSpace` | Program.cs:62 | The white space that trimming removes: the space and tab through carriage return. None of it is an upper- or lower-case letter. |
| `Text.IsLetter` | Program.cs:64 | The letter test: a letter is never white space and is exactly one of upper or lower case. |
| `Text.ToLowerChar` | Program.cs:62 | The result is never upper case. An upper-case letter becomes the lower-case letter at the same place in the alphabet. Letters stay letters and white space stays white space. Characters that are not upper case are kept. |
| `Text.ToLower` | Program.cs:62 | Lower-casing keeps the length and lower-cases each position. |
| `Text.TrimStart` | Program.cs:62 | The result is a suffix of the line. Everything dropped is white space, and the result does not start with white space. |
| `Text.TrimEnd` | Program.cs:62 | The result is a prefix of the line. Everything dropped is white space, and the result does not end with white space. |
| `Text.Trim` | Program.cs:62 | The result is a contiguous part of the line with only white space around it. It neither starts nor ends with white space. |
| `Play.NormalizedLine` | Program.cs:62-64 | A trimmed, lower-cased line is a single letter exactly when the raw line is one letter surrounded by white space. That letter is then the raw letter in lower case. |
| `Play.ParseGuess` | Program.cs:62-64 | A line yields a guess exactly when it is one letter surrounded by white space, and the guess is that letter lower-cased. The end of input yields none, and every guess is a lower-case letter. |
| `Play.Step` | Program.cs:62-71 | A turn changes the state only when the line is one letter surrounded by white space, and then it is the guess of that letter lower-cased. The word stays fixed, the tries never increase, and the invariant is preserved. |
| `Play.Run` | Program.cs:55-72 | The loop keeps the word fixed, never increases the tries and preserves the invariant. It never takes the tries below zero when they start at zero or more, and it leaves a finished game alone. |
| `Play.RunConcat` | Program.cs:55-72 | Feeding two scripts one after the other gives the same state as feeding their concatenation. |
| `Play.EndOfInputChangesNothing` | Program.cs:62-71 | A loop that reads only end-of-input leaves the state unchanged, however many turns it runs. |
| `Play.UnguessableNeverRevealed` | Program.cs:62-66 | A character that is not a lower-case letter and is not yet a correct guess never becomes one. A word that holds such a character is never guessed through the loop. |
| `Play.Verdict` | Program.cs:77-84 | The game is reported won exactly when the word is guessed, and a win means the masked word shows the whole word. A loss reported for a finished game means the tries ran out. |
| `Scenarios.CatGuessedInThreeTurns` | Program.cs:24-40 | Guessing c, a, t on "cat" with 6 tries is not over after the first two guesses. After the third the word is guessed, the game is over and won, and all 6 tries remain. |
| `Scenarios.CatLostOnFirstMiss` | Program.cs:30-39 | On "cat" with 1 try, guessing x leaves wrong guesses {x} and 0 tries. The game is over and the word is not guessed. |
| `Scenarios.CatLostOnRepeatedMiss` | Program.cs:30-39 | On "cat" with 2 tries, guessing x twice leaves 1 try after the first guess. After the second it leaves 0 tries and the game is over. |
| `Scenarios.CatMaskedAfterC` | Program.cs:20 | The masked view of "cat" after guessing c is "c__". |
| `Scenarios.PaddedUpperCaseLineIsRead` | Program.cs:62-66 | A line holding an upper-case letter between a space and a tab is the guess of that letter lower-cased. |
| `Scenarios.LetterLineIsRead` | Program.cs:62-66 | A lone lower-case letter is that guess, also when a space follows it. |
| `Scenarios.TwoLetterLineIsIgnored` | Program.cs:64-70 | The line "ab" leaves the state unchanged. |
| `Scenarios.RunOneTurn` | Program.cs:55-66 | While the game is not over, the loop applies one turn to the first line and continues with the rest. |
| `Scenarios.RunLastTurn` | Program.cs:55-66 | With one line left and the game not over, the loop ends in the state that one turn on that line produces. |
| `Scenarios.CatFinishedByTypedT` | Program.cs:55-72 | After guessing c and a on "cat", the line "t " leads to the state after guessing t. |
| `Scenarios.CatFinishedByTypedLines` | Program.cs:55-72 | After guessing c on "cat", the lines "a" and "t " lead to the state after guessing a and then t. |
| `Scenarios.CatWonThroughTypedLines` | Program.cs:55-72 | On "cat", the lines " C" followed by a tab, "ab", end of input, "a" and "t " lead to the same state as guessing c, a and t. |

## Left out

- Console output is not modelled: clearing the screen, the prompts, the tries
  and wrong guesses listed each turn, and the printing of the mask and the
  closing message. The model keeps the values these show.
- `Main` is not modelled (Program.cs:92-104). It reads the word, trims and
  lower-cases it, and refuses an empty word. The model starts from
  `Hangman.NewGame` with whatever word the caller gives.
- The interactive loop is modelled over a finite script of lines, not as an
  unbounded loop. Invalid lines, end of input and repeated correct guesses make
  no progress, so the real loop need not terminate. There is nothing to prove
  about its termination.
- `Text.ToLowerChar`: lower-cases ASCII letters only. It does not model the
  culture-aware Unicode case mapping of `ToLower`.
- `Text.Trim`: treats only the ASCII space and the control characters tab
  through carriage return as white space. It does not model Unicode white
  space.
- `Play.ParseGuess`: treats only `a`-`z` and `A`-`Z` as letters. It does not
  model the Unicode categories of `char.IsLetter`, so non-ASCII letters are
  rejected here although the program accepts them.
- `Hangman.GuessLetter`: uses an unbounded integer for the tries. It does not
  model the wrap-around of C#'s 32-bit `int`. From a non-negative try count
  that would take more than two billion wrong guesses to reach; a game started
  with `int.MinValue` tries wraps on its first wrong guess.
- `Hangman.Mask`: strings are modelled as sequences of Unicode scalar values,
  not of UTF-16 code units as in C#. For a word with a character outside the
  Basic Multilingual Plane the program's mask shows one placeholder per
  surrogate, so two, where the model shows one.
- The record shares its two mutable hash sets between the old and the new
  state. The model uses immutable set values instead, because the game only
  ever reads the newest state.
