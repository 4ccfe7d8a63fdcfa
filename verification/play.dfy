/**
 One turn of the game loop in `HangmanGame.Play`: the line the player typed
 is trimmed and lower-cased, and it becomes a guess only when what is left is
 exactly one letter; any other line, and the end of input, leaves the state
 as it was. The console output around it is left out; the loop itself is
 modelled over a finite script of input lines.
 */
module Play {
  import opened Text
  import opened Hangman

  /** A line read from the terminal, or `None` at the end of input. */
  datatype Option<T> = None | Some(value: T)

  /** How a finished game is reported. */
  datatype Outcome = Won | Lost

  /** Position `i` of `line` holds a letter, and every other character of the
      line is white space. */
  ghost predicate LoneLetterAt(line: string, i: int) {
    && 0 <= i < |line|
    && IsLetter(line[i])
    && (forall j :: 0 <= j < |line| && j != i ==> IsWhiteSpace(line[j]))
  }

  /** The input check of one turn, stated on the raw line: the trimmed,
      lower-cased line is a single letter exactly when the raw line is one
      letter surrounded by white space, and then it is that letter in lower
      case. */
  lemma NormalizedLine(raw: string)
    ensures var input := ToLower(Trim(raw));
      && (|input| == 1 && IsLetter(input[0]) <==> exists i :: LoneLetterAt(raw, i))
      && (forall i :: LoneLetterAt(raw, i) ==> input == [ToLowerChar(raw[i])])
  {
    var t := Trim(raw);
    var a :| Strips(raw, a, t);
    if |t| == 1 && IsLetter(t[0]) {
      assert LoneLetterAt(raw, a);
    }
    forall i | LoneLetterAt(raw, i)
      ensures t == [raw[i]]
    {
      if |t| > 0 {
        assert raw[a] == t[0] && raw[a + |t| - 1] == t[|t| - 1];
      }
    }
  }

  /** The letter one input line contributes, if any. */
  function ParseGuess(line: Option<string>): (r: Option<char>)
    ensures r.Some? ==> IsLower(r.value)
    ensures r.Some? <==> line.Some? && exists i :: LoneLetterAt(line.value, i)
    ensures forall i :: line.Some? && LoneLetterAt(line.value, i) ==>
      r == Some(ToLowerChar(line.value[i]))
  {
    match line
    case None => None
    case Some(raw) =>
      NormalizedLine(raw);
      var input := ToLower(Trim(raw));
      if |input| == 1 && IsLetter(input[0]) then Some(input[0]) else None
  }

  /** One turn: a guess when the line is one letter, otherwise no change. */
  function Step(s: State, line: Option<string>): (r: State)
    ensures r != s ==> line.Some? && exists i :: LoneLetterAt(line.value, i)
    ensures forall i :: line.Some? && LoneLetterAt(line.value, i) ==>
      r == GuessLetter(s, ToLowerChar(line.value[i]))
    ensures r.wordToGuess == s.wordToGuess
    ensures r.remainingTries <= s.remainingTries
    ensures Valid(s) ==> Valid(r)
  {
    match ParseGuess(line)
    case None => s
    case Some(c) => GuessLetter(s, c)
  }

  /** The loop fed the lines of `inputs` in order: it stops as soon as the
      game is over, or when the lines run out. */
  function Run(s: State, inputs: seq<Option<string>>): (r: State)
    ensures r.wordToGuess == s.wordToGuess
    ensures r.remainingTries <= s.remainingTries
    ensures Valid(s) ==> Valid(r)
    ensures s.remainingTries >= 0 ==> r.remainingTries >= 0
    ensures IsGameOver(s) ==> r == s
    decreases |inputs|
  {
    if IsGameOver(s) || |inputs| == 0 then s
    else Run(Step(s, inputs[0]), inputs[1..])
  }

  /** Feeding two scripts one after the other is feeding their
      concatenation. */
  lemma {:induction false} RunConcat(s: State, xs: seq<Option<string>>, ys: seq<Option<string>>)
    ensures Run(Run(s, xs), ys) == Run(s, xs + ys)
    decreases |xs|
  {
    if IsGameOver(s) {
      assert Run(s, xs) == s && Run(s, xs + ys) == s;
    } else if |xs| == 0 {
      assert xs + ys == ys;
    } else {
      var next := Step(s, xs[0]);
      var rest := xs[1..];
      assert (xs + ys)[0] == xs[0] && (xs + ys)[1..] == rest + ys;
      calc {
        Run(Run(s, xs), ys);
        Run(Run(next, rest), ys);
        { RunConcat(next, rest, ys); }
        Run(next, rest + ys);
        Run(s, xs + ys);
      }
    }
  }

  /** At the end of input every further read yields nothing, so the loop
      makes no progress however long it runs. */
  lemma {:induction false} EndOfInputChangesNothing(s: State, inputs: seq<Option<string>>)
    requires forall k :: 0 <= k < |inputs| ==> inputs[k] == None
    ensures Run(s, inputs) == s
    decreases |inputs|
  {
    if !IsGameOver(s) && |inputs| > 0 {
      assert Step(s, inputs[0]) == s;
      EndOfInputChangesNothing(s, inputs[1..]);
    }
  }

  /** With letters restricted to ASCII, the input check only ever yields
      lower-case letters, so a character that is not one is never revealed,
      and a word holding such a character (a space, a digit, an upper-case
      letter) can never be won. */
  lemma {:induction false} UnguessableNeverRevealed(s: State, inputs: seq<Option<string>>, c: char)
    requires !IsLower(c) && c !in s.guessedLetters
    ensures c !in Run(s, inputs).guessedLetters
    ensures c in s.wordToGuess ==> !IsWordGuessed(Run(s, inputs))
    decreases |inputs|
  {
    if !IsGameOver(s) && |inputs| > 0 {
      var next := Step(s, inputs[0]);
      assert c !in next.guessedLetters;
      UnguessableNeverRevealed(next, inputs[1..], c);
    }
  }

  /** The closing message: a win when the word has been guessed, a loss
      otherwise. */
  function Verdict(s: State): (v: Outcome)
    ensures v == Won <==> IsWordGuessed(s)
    ensures v == Won ==> Mask(s.wordToGuess, s.guessedLetters) == s.wordToGuess
    ensures IsGameOver(s) && v == Lost ==> s.remainingTries <= 0
  {
    MaskRevealsWord(s);
    if IsWordGuessed(s) then Won else Lost
  }
}
