// The best-score rule several games share: the stored best is replaced only
// by a strictly larger score.

module Scores {

  function Best(highScore: int, score: int): (r: int)
    ensures r >= highScore && r >= score
    ensures r == highScore || r == score
    ensures r > highScore <==> score > highScore
  {
    if score > highScore then score else highScore
  }
}
