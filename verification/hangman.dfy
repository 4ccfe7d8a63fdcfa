/**
 The hangman game state and its single transition, as in the
 `HangmanGameState` record: the word to guess, the letters guessed that occur
 in it, the letters guessed that do not, and the number of tries left.

 The record shares its two mutable hash sets between the old and the new
 instance; every observation the game makes of a state is of its values, so
 the sets are modelled as immutable `set<char>` values here.
 */
module Hangman {

  datatype State = State(
    wordToGuess: string,
    guessedLetters: set<char>,
    incorrectGuesses: set<char>,
    remainingTries: int)

  /** Tries a new game starts with when the caller gives none. */
  const DefaultMaxTries := 6

  /** Shown in the masked word for a letter not yet guessed. */
  const Placeholder := '_'

  /** The distinct characters of a word. */
  function Letters(w: string): set<char> {
    set c | c in w
  }

  /** The state invariant: the guesses are partitioned by membership in the
      word. Correct guesses all occur in it, wrong guesses never do, so no
      letter is recorded as both. */
  function Valid(s: State): (r: bool)
    ensures r ==> s.guessedLetters !! s.incorrectGuesses
  {
    && s.guessedLetters <= Letters(s.wordToGuess)
    && s.incorrectGuesses !! Letters(s.wordToGuess)
  }

  /** The state a new game starts in. */
  function NewGame(word: string, maxTries: int := DefaultMaxTries): (s: State)
    ensures s.wordToGuess == word && s.remainingTries == maxTries
    ensures s.guessedLetters == {} && s.incorrectGuesses == {}
    ensures Valid(s)
    ensures |word| > 0 && maxTries > 0 ==> !IsGameOver(s)
    ensures forall i :: 0 <= i < |word| ==> Mask(word, s.guessedLetters)[i] == Placeholder
  {
    State(word, {}, {}, maxTries)
  }

  /** One guess. A letter of the word is added to the correct guesses and
      costs nothing; any other letter is added to the wrong guesses and costs
      one try, whether or not it was guessed before. The letter is compared
      with the word as given, without case folding. */
  function GuessLetter(s: State, letter: char): (r: State)
    ensures r.wordToGuess == s.wordToGuess
    ensures letter in s.wordToGuess ==>
      && r.guessedLetters == s.guessedLetters + {letter}
      && r.incorrectGuesses == s.incorrectGuesses
      && r.remainingTries == s.remainingTries
    ensures letter !in s.wordToGuess ==>
      && r.guessedLetters == s.guessedLetters
      && r.incorrectGuesses == s.incorrectGuesses + {letter}
      && r.remainingTries == s.remainingTries - 1
    ensures Valid(s) ==> Valid(r)
  {
    if letter in s.wordToGuess then
      s.(guessedLetters := s.guessedLetters + {letter})
    else
      s.(incorrectGuesses := s.incorrectGuesses + {letter},
         remainingTries := s.remainingTries - 1)
  }

  /** Every character of `w` is in `g`. */
  function AllIn(w: string, g: set<char>): (r: bool)
    ensures r <==> forall i :: 0 <= i < |w| ==> w[i] in g
  {
    |w| == 0 || (w[0] in g && AllIn(w[1..], g))
  }

  function IsWordGuessed(s: State): (r: bool)
    ensures r <==> Letters(s.wordToGuess) <= s.guessedLetters
  {
    AllIn(s.wordToGuess, s.guessedLetters)
  }

  function IsGameOver(s: State): (r: bool)
    ensures IsWordGuessed(s) ==> r
    ensures s.remainingTries <= 0 ==> r
  {
    s.remainingTries <= 0 || IsWordGuessed(s)
  }

  /** The masked word the game displays: each character of the word that has
      been guessed, and the placeholder for each one that has not. */
  function Mask(word: string, guessed: set<char>): (r: string)
    ensures |r| == |word|
    ensures forall i :: 0 <= i < |word| ==>
      r[i] == (if word[i] in guessed then word[i] else Placeholder)
  {
    if |word| == 0 then []
    else [if word[0] in guessed then word[0] else Placeholder] + Mask(word[1..], guessed)
  }

  /** The masked word shows the whole word once it has been guessed, and a
      masked word without placeholders means the word has been guessed. For
      a word without the placeholder character the two are equivalent. */
  lemma MaskRevealsWord(s: State)
    ensures IsWordGuessed(s) ==> Mask(s.wordToGuess, s.guessedLetters) == s.wordToGuess
    ensures Placeholder !in Mask(s.wordToGuess, s.guessedLetters) ==> IsWordGuessed(s)
    ensures Placeholder !in s.wordToGuess ==>
      (Mask(s.wordToGuess, s.guessedLetters) == s.wordToGuess <==> IsWordGuessed(s))
  {
  }

  /** A repeated correct guess changes nothing. */
  lemma RepeatCorrectGuessIsNoOp(s: State, c: char)
    requires c in s.wordToGuess
    ensures GuessLetter(GuessLetter(s, c), c) == GuessLetter(s, c)
  {
  }

  /** A repeated wrong guess records nothing new but costs one more try. */
  lemma RepeatWrongGuessCostsATry(s: State, c: char)
    requires c !in s.wordToGuess
    ensures var once := GuessLetter(s, c);
      var twice := GuessLetter(once, c);
      && twice.guessedLetters == once.guessedLetters
      && twice.incorrectGuesses == once.incorrectGuesses
      && twice.remainingTries == once.remainingTries - 1
  {
  }

  /** A guess leaves the state unchanged exactly when it repeats a correct
      guess. */
  lemma GuessIsNoOpIff(s: State, c: char)
    ensures GuessLetter(s, c) == s <==> c in s.wordToGuess && c in s.guessedLetters
  {
  }

  /** The guesses of `letters`, in order. */
  function GuessAll(s: State, letters: seq<char>): (r: State)
    ensures r.wordToGuess == s.wordToGuess
    ensures r.remainingTries <= s.remainingTries
    ensures Valid(s) ==> Valid(r)
    decreases |letters|
  {
    if |letters| == 0 then s else GuessAll(GuessLetter(s, letters[0]), letters[1..])
  }

  /** How many of `letters` do not occur in `word`, repeats included. */
  function Misses(word: string, letters: seq<char>): nat {
    if |letters| == 0 then 0
    else (if letters[0] in word then 0 else 1) + Misses(word, letters[1..])
  }

  /** The exact effect of a sequence of guesses: the correct guesses gain the
      guessed letters that occur in the word, the wrong guesses gain the rest,
      and every guess of a letter outside the word costs one try. */
  lemma {:induction false} GuessAllEffect(s: State, letters: seq<char>)
    ensures var r := GuessAll(s, letters);
      && r.guessedLetters == s.guessedLetters + (Letters(letters) * Letters(s.wordToGuess))
      && r.incorrectGuesses == s.incorrectGuesses + (Letters(letters) - Letters(s.wordToGuess))
      && r.remainingTries == s.remainingTries - Misses(s.wordToGuess, letters)
    decreases |letters|
  {
    if |letters| > 0 {
      var next := GuessLetter(s, letters[0]);
      GuessAllEffect(next, letters[1..]);
      assert Letters(letters) == {letters[0]} + Letters(letters[1..]) by {
        assert letters == [letters[0]] + letters[1..];
      }
    } else {
      assert Letters(letters) == {};
    }
  }
}
