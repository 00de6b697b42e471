// The word guesser (hangman): letters are guessed one at a time; a guess
// absent from the word costs a mistake, and six mistakes end the round.

module WordGuess {

  const WORDS: seq<string> := ["GALAXY", "CODING", "GAMING", "ROBOT", "PIXEL", "PYTHON", "REACT", "CANVAS"]
  const MAX_MISTAKES: nat := 6

  /** The number of guessed letters that do not occur in the word. */
  function Misses(guessed: seq<char>, word: string): (n: nat)
    ensures n <= |guessed|
  {
    if guessed == [] then 0
    else Misses(guessed[..|guessed| - 1], word) + (if guessed[|guessed| - 1] in word then 0 else 1)
  }

  predicate NoDuplicates(s: seq<char>) {
    forall i, j :: 0 <= i < j < |s| ==> s[i] != s[j]
  }

  /** isWin: the word is non-empty and each of its letters has been guessed. */
  predicate IsWin(word: string, guessed: seq<char>) {
    word != [] && forall i :: 0 <= i < |word| ==> word[i] in guessed
  }

  /** Guessing a letter of the word never costs a mistake; any other letter costs one. */
  lemma MissesAppend(guessed: seq<char>, word: string, letter: char)
    ensures Misses(guessed + [letter], word) == Misses(guessed, word) + (if letter in word then 0 else 1)
  {
    assert (guessed + [letter])[..|guessed|] == guessed;
  }

  /** Mistakes are only made with letters absent from the word, so guessing
      the whole word's letters wins with no mistake at all. */
  lemma {:induction false} MissesNone(guessed: seq<char>, word: string)
    requires forall i :: 0 <= i < |guessed| ==> guessed[i] in word
    ensures Misses(guessed, word) == 0
  {
    if guessed != [] {
      MissesNone(guessed[..|guessed| - 1], word);
    }
  }

  class WordGuess {
    var word: string
    var guessed: seq<char>
    var mistakes: nat

    /** guessed never repeats a letter, and mistakes counts exactly the guessed
        letters missing from the word, which is at most six. */
    ghost predicate Valid()
      reads this
    {
      NoDuplicates(guessed) && mistakes == Misses(guessed, word) && mistakes <= MAX_MISTAKES
    }

    /** The word starts empty until the mount effect picks one. */
    constructor ()
      ensures Valid() && word == [] && guessed == [] && mistakes == 0
    {
      word, guessed, mistakes := [], [], 0;
    }

    predicate Won()
      reads this
    {
      IsWin(word, guessed)
    }

    predicate Lost()
      reads this
    {
      mistakes >= MAX_MISTAKES
    }

    /** newGame: draw a word (pick stands for the random index), clear the guesses. */
    method NewGame(pick: nat)
      requires pick < |WORDS|
      modifies this
      ensures Valid() && word == WORDS[pick] && guessed == [] && mistakes == 0
    {
      word := WORDS[pick];
      guessed := [];
      mistakes := 0;
    }

    /** handleGuess: repeated letters and guesses after the round ended are ignored. */
    method Guess(letter: char)
      requires Valid()
      modifies this
      ensures Valid() && word == old(word)
      ensures letter in old(guessed) || old(mistakes) >= MAX_MISTAKES || IsWin(old(word), old(guessed)) ==>
                guessed == old(guessed) && mistakes == old(mistakes)
      ensures !(letter in old(guessed) || old(mistakes) >= MAX_MISTAKES || IsWin(old(word), old(guessed))) ==>
                guessed == old(guessed) + [letter] &&
                mistakes == old(mistakes) + (if letter in word then 0 else 1)
    {
      if letter in guessed || mistakes >= MAX_MISTAKES || IsWin(word, guessed) {
        return;
      }
      MissesAppend(guessed, word, letter);
      guessed := guessed + [letter];
      if letter !in word {
        mistakes := mistakes + 1;
      }
    }
  }
}
