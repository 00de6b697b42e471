// The colour matcher (a Stroop test): a colour name is shown in some colour
// and the player says whether the two agree.  Right answers build a streak
// and buy time back; the first wrong answer or the end of the clock ends the game.

module ColorMatch {
  import opened Wrappers
  import Scores

  datatype Color = Color(name: string, hex: string)

  const COLORS: seq<Color> := [
    Color("RED", "#ef4444"),
    Color("BLUE", "#3b82f6"),
    Color("GREEN", "#10b981"),
    Color("YELLOW", "#eab308"),
    Color("PURPLE", "#a855f7"),
    Color("ORANGE", "#f97316")
  ]

  const START_TIME: int := 20
  const MAX_TIME: int := 30

  /** The round on screen: a colour name, the colour it is painted in, and the answer. */
  datatype Round = Round(name: string, color: string, isMatch: bool)

  datatype Reason = Time | Mistake

  /** No two palette entries share a name or a colour. */
  lemma PaletteDistinct()
    ensures forall i, j :: 0 <= i < j < |COLORS| ==> COLORS[i].name != COLORS[j].name
    ensures forall i, j :: 0 <= i < j < |COLORS| ==> COLORS[i].hex != COLORS[j].hex
  {
  }

  /** nextRound from its three random draws: the name, an independent colour,
      and whether to force the colour to match the name. */
  function NextRound(nameIdx: nat, colorIdx: nat, forceMatch: bool): (r: Round)
    requires nameIdx < |COLORS| && colorIdx < |COLORS|
    ensures r.name == COLORS[nameIdx].name
    ensures exists k :: 0 <= k < |COLORS| && r.color == COLORS[k].hex
    ensures r.isMatch <==> r.color == COLORS[nameIdx].hex
    ensures forceMatch ==> r.isMatch
    ensures !forceMatch ==> r.color == COLORS[colorIdx].hex
  {
    PaletteDistinct();
    var actual := if forceMatch then nameIdx else colorIdx;
    Round(COLORS[nameIdx].name, COLORS[actual].hex, nameIdx == actual)
  }

  class ColorMatch {
    var score: int
    var highScore: int
    var streak: int
    var timeLeft: int
    var current: Round
    var gameActive: bool
    var reason: Option<Reason>

    /** A running game has time left and no end reason; the best score is never
        below the current score. */
    ghost predicate Valid()
      reads this
    {
      0 <= score <= highScore && streak >= 0 && 0 <= timeLeft <= MAX_TIME &&
      (gameActive ==> timeLeft >= 1 && reason == None)
    }

    constructor ()
      ensures Valid()
      ensures score == 0 && highScore == 0 && streak == 0 && timeLeft == START_TIME
      ensures current == Round("", "", false) && !gameActive && reason == None
    {
      score, highScore, streak, timeLeft := 0, 0, 0, START_TIME;
      current := Round("", "", false);
      gameActive, reason := false, None;
    }

    /** One second of the countdown, which only runs while the game is on. */
    method Tick()
      requires Valid()
      modifies this
      ensures Valid()
      ensures score == old(score) && highScore == old(highScore) && streak == old(streak) && current == old(current)
      ensures !old(gameActive) ==> timeLeft == old(timeLeft) && !gameActive && reason == old(reason)
      ensures old(gameActive) && old(timeLeft) <= 1 ==> timeLeft == 0 && !gameActive && reason == Some(Time)
      ensures old(gameActive) && old(timeLeft) > 1 ==> timeLeft == old(timeLeft) - 1 && gameActive && reason == None
    {
      if !(gameActive && timeLeft > 0) {
        return;
      }
      if timeLeft <= 1 {
        gameActive := false;
        reason := Some(Time);
        timeLeft := 0;
      } else {
        timeLeft := timeLeft - 1;
      }
    }

    /** handleChoice; the draws are those of the next round, used on a right answer. */
    method Choose(choice: bool, nameIdx: nat, colorIdx: nat, forceMatch: bool)
      requires Valid() && nameIdx < |COLORS| && colorIdx < |COLORS|
      modifies this
      ensures Valid()
      ensures !old(gameActive) ==>
                score == old(score) && highScore == old(highScore) && streak == old(streak) &&
                timeLeft == old(timeLeft) && current == old(current) && !gameActive && reason == old(reason)
      ensures old(gameActive) && choice == old(current).isMatch ==>
                score == old(score) + 10 + 2 * old(streak) && streak == old(streak) + 1 &&
                timeLeft == (if old(timeLeft) + 1 < MAX_TIME then old(timeLeft) + 1 else MAX_TIME) &&
                current == NextRound(nameIdx, colorIdx, forceMatch) &&
                gameActive && reason == None && highScore == Scores.Best(old(highScore), score)
      ensures old(gameActive) && choice != old(current).isMatch ==>
                score == old(score) && highScore == old(highScore) && streak == 0 &&
                timeLeft == old(timeLeft) && current == old(current) &&
                !gameActive && reason == Some(Mistake)
    {
      if !gameActive {
        return;
      }
      if choice == current.isMatch {
        score := score + 10 + streak * 2;
        streak := streak + 1;
        timeLeft := if timeLeft + 1 < MAX_TIME then timeLeft + 1 else MAX_TIME;
        current := NextRound(nameIdx, colorIdx, forceMatch);
        highScore := Scores.Best(highScore, score);
      } else {
        streak := 0;
        gameActive := false;
        reason := Some(Mistake);
      }
    }

    /** start: a fresh game with its first round. */
    method Start(nameIdx: nat, colorIdx: nat, forceMatch: bool)
      requires Valid() && nameIdx < |COLORS| && colorIdx < |COLORS|
      modifies this
      ensures Valid()
      ensures score == 0 && streak == 0 && timeLeft == START_TIME && gameActive && reason == None
      ensures current == NextRound(nameIdx, colorIdx, forceMatch) && highScore == old(highScore)
    {
      score, streak, timeLeft := 0, 0, START_TIME;
      gameActive, reason := true, None;
      current := NextRound(nameIdx, colorIdx, forceMatch);
    }
  }
}
