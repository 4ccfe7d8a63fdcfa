/**
 Whole games on the word "cat", stated as lemmas about the model.
 */
module Scenarios {
  import opened Text
  import opened Hangman
  import opened Play

  /** Guessing c, a, t in turn wins without losing a try; the game is not
      over before the last letter. */
  lemma CatGuessedInThreeTurns()
    ensures var s0 := NewGame("cat");
      var s1 := GuessLetter(s0, 'c');
      var s2 := GuessLetter(s1, 'a');
      var s3 := GuessLetter(s2, 't');
      && !IsGameOver(s1) && !IsGameOver(s2)
      && IsWordGuessed(s3) && IsGameOver(s3) && Verdict(s3) == Won
      && s3.remainingTries == DefaultMaxTries
  {
    var s2 := GuessLetter(GuessLetter(NewGame("cat"), 'c'), 'a');
    assert 't' !in s2.guessedLetters;
    assert !IsWordGuessed(s2) by { assert "cat"[2] == 't'; }
  }

  /** With one try, one wrong letter loses the game. */
  lemma CatLostOnFirstMiss()
    ensures var s := GuessLetter(NewGame("cat", 1), 'x');
      && s.incorrectGuesses == {'x'}
      && s.remainingTries == 0
      && IsGameOver(s) && !IsWordGuessed(s)
  {
  }

  /** With two tries, the same wrong letter twice uses both of them and ends
      the game. */
  lemma CatLostOnRepeatedMiss()
    ensures var s1 := GuessLetter(NewGame("cat", 2), 'x');
      var s2 := GuessLetter(s1, 'x');
      && s1.remainingTries == 1 && !IsGameOver(s1)
      && s2.incorrectGuesses == {'x'} && s2.remainingTries == 0 && IsGameOver(s2)
  {
  }

  /** Only the guessed letter is shown. */
  lemma CatMaskedAfterC()
    ensures Mask("cat", {'c'}) == "c__"
  {
  }

  /** An upper-case letter between a space and a tab is read as the same
      letter in lower case. */
  lemma PaddedUpperCaseLineIsRead(s: State, c: char)
    requires IsUpper(c)
    ensures Step(s, Some([' ', c, '\t'])) == GuessLetter(s, ToLowerChar(c))
  {
    assert LoneLetterAt([' ', c, '\t'], 1);
  }

  /** A lower-case letter, alone or followed by a space, is read as that
      letter. */
  lemma LetterLineIsRead(s: State, c: char)
    requires IsLower(c)
    ensures Step(s, Some([c])) == GuessLetter(s, c)
    ensures Step(s, Some([c, ' '])) == GuessLetter(s, c)
  {
    assert LoneLetterAt([c], 0);
    assert LoneLetterAt([c, ' '], 0);
  }

  /** Two letters are not a guess. */
  lemma TwoLetterLineIsIgnored(s: State)
    ensures Step(s, Some("ab")) == s
  {
    forall i | 0 <= i < 2 ensures !LoneLetterAt("ab", i) {
      assert !IsWhiteSpace("ab"[1 - i]);
    }
  }

  /** One loop iteration of a game that is not over. */
  lemma RunOneTurn(s: State, lines: seq<Option<string>>)
    requires !IsGameOver(s) && |lines| > 0
    ensures Run(s, lines) == Run(Step(s, lines[0]), lines[1..])
  {
  }

  /** The last loop iteration of a game that is not over. */
  lemma RunLastTurn(s: State, lines: seq<Option<string>>)
    requires !IsGameOver(s) && |lines| == 1
    ensures Run(s, lines) == Step(s, lines[0])
  {
  }

  /** The last line of the game below: t, padded. */
  lemma CatFinishedByTypedT(lines: seq<Option<string>>)
    requires |lines| == 1 && lines[0] == Some("t ")
    ensures var s2 := GuessLetter(GuessLetter(NewGame("cat"), 'c'), 'a');
      Run(s2, lines) == GuessLetter(s2, 't')
  {
    var s2 := GuessLetter(GuessLetter(NewGame("cat"), 'c'), 'a');
    assert !IsWordGuessed(s2) by { assert "cat"[2] == 't'; }
    RunLastTurn(s2, lines);
    assert lines[0] == Some(['t', ' ']);
    LetterLineIsRead(s2, 't');
  }

  /** The last two lines of the game below: a, then t padded. */
  lemma CatFinishedByTypedLines(lines: seq<Option<string>>)
    requires |lines| == 2 && lines[0] == Some("a") && lines[1] == Some("t ")
    ensures var s1 := GuessLetter(NewGame("cat"), 'c');
      Run(s1, lines) == GuessLetter(GuessLetter(s1, 'a'), 't')
  {
    var s1 := GuessLetter(NewGame("cat"), 'c');
    assert !IsWordGuessed(s1) by { assert "cat"[2] == 't'; }
    LetterLineIsRead(s1, 'a');
    assert lines[0] == Some(['a']);
    RunOneTurn(s1, lines);
    CatFinishedByTypedT(lines[1..]);
  }

  /** Typed lines: padded upper case is accepted as the lower-case letter,
      two letters and the end of input are ignored, so the game ends exactly
      as if c, a and t had been guessed, which wins it. */
  lemma CatWonThroughTypedLines(lines: seq<Option<string>>)
    requires |lines| == 5
    requires lines[0] == Some(" C\t") && lines[1] == Some("ab") && lines[2] == None
    requires lines[3] == Some("a") && lines[4] == Some("t ")
    ensures Run(NewGame("cat"), lines) ==
      GuessLetter(GuessLetter(GuessLetter(NewGame("cat"), 'c'), 'a'), 't')
  {
    var s0 := NewGame("cat");
    var s1 := GuessLetter(s0, 'c');
    assert !IsWordGuessed(s1) by { assert "cat"[2] == 't'; }
    PaddedUpperCaseLineIsRead(s0, 'C');
    assert lines[0] == Some([' ', 'C', '\t']);
    RunOneTurn(s0, lines);
    TwoLetterLineIsIgnored(s1);
    RunOneTurn(s1, lines[1..]);
    assert lines[1..][1..] == lines[2..];
    RunOneTurn(s1, lines[2..]);
    assert lines[2..][1..] == lines[3..];
    CatFinishedByTypedLines(lines[3..]);
  }
}
