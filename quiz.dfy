// The general-knowledge quiz: ten questions drawn from a pool of 32, each
// with its four answers shuffled and the correct index moved with them.

module Quiz {

  datatype Question = Question(q: string, a: seq<string>, c: int)

  const QUESTION_POOL: seq<Question> := [
    Question("Which planet is known as the Red Planet?", ["Earth", "Mars", "Jupiter", "Venus"], 1),
    Question("What is the capital of France?", ["London", "Berlin", "Paris", "Madrid"], 2),
    Question("Which animal is the largest mammal in the world?", ["Elephant", "Blue Whale", "Giraffe", "Shark"], 1),
    Question("Who painted the Mona Lisa?", ["Picasso", "Van Gogh", "Da Vinci", "Rembrandt"], 2),
    Question("What is the hardest natural substance on Earth?", ["Gold", "Iron", "Diamond", "Steel"], 2),
    Question("How many continents are there on Earth?", ["5", "6", "7", "8"], 2),
    Question("Which element has the chemical symbol 'O'?", ["Gold", "Oxygen", "Silver", "Iron"], 1),
    Question("What is the smallest prime number?", ["0", "1", "2", "3"], 2),
    Question("In which year did the Titanic sink?", ["1905", "1912", "1920", "1935"], 1),
    Question("What is the currency of Japan?", ["Won", "Yuan", "Yen", "Dollar"], 2),
    Question("Which gas do plants absorb from the atmosphere?", ["Oxygen", "Carbon Dioxide", "Nitrogen", "Hydrogen"], 1),
    Question("What is the largest organ in the human body?", ["Heart", "Brain", "Skin", "Liver"], 2),
    Question("Who wrote 'Romeo and Juliet'?", ["Charles Dickens", "William Shakespeare", "Mark Twain", "Jane Austen"], 1),
    Question("What is the speed of light?", ["300,000 km/s", "150,000 km/s", "500,000 km/s", "1,000,000 km/s"], 0),
    Question("Which ocean is the largest?", ["Atlantic", "Indian", "Arctic", "Pacific"], 3),
    Question("What is the square root of 64?", ["6", "7", "8", "9"], 2),
    Question("Which country is home to the Kangaroo?", ["India", "Australia", "Brazil", "South Africa"], 1),
    Question("What is the boiling point of water in Celsius?", ["50\U{00B0}C", "90\U{00B0}C", "100\U{00B0}C", "120\U{00B0}C"], 2),
    Question("Who was the first person to walk on the moon?", ["Yuri Gagarin", "Neil Armstrong", "Buzz Aldrin", "Michael Collins"], 1),
    Question("What is the most spoken language in the world?", ["English", "Spanish", "Hindi", "Mandarin Chinese"], 3),
    Question("Which organ pumps blood throughout the human body?", ["Lungs", "Brain", "Heart", "Stomach"], 2),
    Question("What is the chemical symbol for Gold?", ["Ag", "Au", "Fe", "Pb"], 1),
    Question("Which planet is closest to the Sun?", ["Venus", "Mars", "Mercury", "Earth"], 2),
    Question("What is the capital city of Italy?", ["Venice", "Milan", "Rome", "Florence"], 2),
    Question("How many strings does a standard violin have?", ["3", "4", "5", "6"], 1),
    Question("What is the main ingredient in guacamole?", ["Tomato", "Onion", "Avocado", "Pepper"], 2),
    Question("In which city are the Pyramids of Giza located?", ["Cairo", "Luxor", "Alexandria", "Giza"], 0),
    Question("Who is known as the 'Father of Computers'?", ["Alan Turing", "Charles Babbage", "Steve Jobs", "Bill Gates"], 1),
    Question("Which bone is the longest in the human body?", ["Skull", "Rib", "Femur", "Spine"], 2),
    Question("What is the capital of Canada?", ["Toronto", "Vancouver", "Montreal", "Ottawa"], 3),
    Question("What do you call a baby kangaroo?", ["Cub", "Joey", "Calf", "Foal"], 1),
    Question("Which is the tallest mountain in the world?", ["K2", "Mount Everest", "Kilimanjaro", "Denali"], 1)
  ]

  const SESSION_LENGTH: nat := 10

  /** A pool entry the quiz can use: four answers and a correct index among them. */
  predicate WellFormed(q: Question) {
    |q.a| == 4 && 0 <= q.c < 4
  }

  lemma PoolWellFormed()
    ensures |QUESTION_POOL| == 32
    ensures forall k :: 0 <= k < |QUESTION_POOL| ==> WellFormed(QUESTION_POOL[k])
  {
  }

  /** p lists 0..n-1, each once: the order a shuffle leaves n items in. */
  predicate IsPermutation(p: seq<nat>, n: nat) {
    |p| == n && (forall i :: 0 <= i < n ==> p[i] < n) &&
    (forall i, j :: 0 <= i < j < n ==> p[i] != p[j])
  }

  /** Four distinct values below four take every value: the shuffle loses no answer. */
  lemma ShuffleKeepsAll(p: seq<nat>, v: nat)
    requires IsPermutation(p, 4) && v < 4
    ensures v in p
  {
    var a, b, c, d := p[0], p[1], p[2], p[3];
    assert a < 4 && b < 4 && c < 4 && d < 4;
    assert a != b && a != c && a != d && b != c && b != d && c != d;
    assert v == a || v == b || v == c || v == d;
  }

  /** Array.prototype.indexOf: the first index holding x, or -1. */
  function IndexOf(s: seq<string>, x: string): (r: int)
    ensures r == -1 <==> x !in s
    ensures r != -1 ==> 0 <= r < |s| && s[r] == x && forall j :: 0 <= j < r ==> s[j] != x
  {
    if s == [] then -1
    else if s[0] == x then 0
    else var r := IndexOf(s[1..], x); if r == -1 then -1 else r + 1
  }

  /** The items of s in the order p gives. */
  function Permute<T>(s: seq<T>, p: seq<nat>): (r: seq<T>)
    requires forall i :: 0 <= i < |p| ==> p[i] < |s|
    ensures |r| == |p| && forall i :: 0 <= i < |p| ==> r[i] == s[p[i]]
  {
    seq(|p|, i requires 0 <= i < |p| => s[p[i]])
  }

  /** One selected question with its answers shuffled by order and the correct
      index looked up again by the correct answer's text. */
  function Remap(question: Question, order: seq<nat>): (r: Question)
    requires WellFormed(question) && IsPermutation(order, 4)
    ensures r.q == question.q && |r.a| == 4 && 0 <= r.c < 4
    ensures r.a[r.c] == question.a[question.c]
    ensures forall i :: 0 <= i < 4 ==> r.a[i] == question.a[order[i]]
  {
    var answers := Permute(question.a, order);
    var correct := question.a[question.c];
    ShuffleKeepsAll(order, question.c);
    var k :| 0 <= k < 4 && order[k] == question.c;
    assert answers[k] == correct;
    Question(question.q, answers, IndexOf(answers, correct))
  }

  /** The first n of the shuffled pool, each remapped. */
  function Select(pool: seq<Question>, perm: seq<nat>, orders: seq<seq<nat>>, n: nat): (r: seq<Question>)
    requires n <= |perm| && n <= |orders|
    requires forall i :: 0 <= i < |perm| ==> perm[i] < |pool| && WellFormed(pool[perm[i]])
    requires forall i :: 0 <= i < |orders| ==> IsPermutation(orders[i], 4)
    ensures |r| == n && forall k :: 0 <= k < n ==> r[k] == Remap(pool[perm[k]], orders[k])
  {
    seq(n, k requires 0 <= k < n => Remap(pool[perm[k]], orders[k]))
  }

  datatype Rank = Perfect | Genius | Great | KeepLearning

  /** The rank shown on the results screen. */
  function RankOf(score: int): Rank {
    if score == 10 then Perfect else if score >= 8 then Genius else if score >= 5 then Great else KeepLearning
  }

  function RankLevel(r: Rank): nat {
    match r
    case KeepLearning => 0
    case Great => 1
    case Genius => 2
    case Perfect => 3
  }

  /** Within a session's possible scores, a higher score never earns a lower rank,
      and only the full ten is perfect. */
  lemma RankMonotone(s1: int, s2: int)
    requires 0 <= s1 <= s2 <= SESSION_LENGTH
    ensures RankLevel(RankOf(s1)) <= RankLevel(RankOf(s2))
    ensures RankOf(s2) == Perfect <==> s2 == SESSION_LENGTH
  {
  }

  class Quiz {
    var questions: seq<Question>
    var current: nat
    var score: nat
    var finished: bool
    var started: bool

    /** A session: ten usable questions, current is on one of them, and the
        score is at most the number of questions answered. */
    ghost predicate Session()
      reads this
    {
      |questions| == SESSION_LENGTH && current < |questions| &&
      (forall k :: 0 <= k < |questions| ==> |questions[k].a| == 4 && 0 <= questions[k].c < 4) &&
      score <= current + (if finished then 1 else 0)
    }

    /** A started quiz holds a session.  A quiz not started is not finished;
        it holds nothing before the first start, and after the quit button
        it keeps the session it left. */
    ghost predicate Valid()
      reads this
    {
      (started ==> Session()) &&
      (!started ==> !finished && ((questions == [] && current == 0 && score == 0) || Session()))
    }

    constructor ()
      ensures Valid() && questions == [] && current == 0 && score == 0 && !finished && !started
    {
      questions, current, score, finished, started := [], 0, 0, false, false;
    }

    /** initializeQuiz: perm is the shuffled order of the pool and orders[k] the
        shuffled order of the k-th selected question's answers. */
    method Initialize(perm: seq<nat>, orders: seq<seq<nat>>)
      requires IsPermutation(perm, |QUESTION_POOL|)
      requires |orders| == SESSION_LENGTH && forall i :: 0 <= i < |orders| ==> IsPermutation(orders[i], 4)
      modifies this
      ensures Valid()
      ensures questions == Select(QUESTION_POOL, perm, orders, SESSION_LENGTH)
      ensures forall k :: 0 <= k < |questions| ==>
                var original := QUESTION_POOL[perm[k]];
                questions[k].q == original.q && questions[k].a[questions[k].c] == original.a[original.c]
      ensures forall k, l :: 0 <= k < l < |questions| ==> perm[k] != perm[l]
      ensures current == 0 && score == 0 && !finished && started
    {
      PoolWellFormed();
      questions := Select(QUESTION_POOL, perm, orders, SESSION_LENGTH);
      current, score, finished, started := 0, 0, false, true;
    }

    /** handleAnswer, reachable from the answer buttons of an unfinished quiz. */
    method Answer(idx: nat)
      requires Valid() && started && !finished && idx < |questions[current].a|
      modifies this
      ensures Valid() && questions == old(questions) && started
      ensures score == old(score) + (if idx == old(questions[current].c) then 1 else 0)
      ensures old(current) + 1 < |questions| ==> current == old(current) + 1 && !finished
      ensures old(current) + 1 >= |questions| ==> current == old(current) && finished
    {
      if idx == questions[current].c {
        score := score + 1;
      }
      if current + 1 < |questions| {
        current := current + 1;
      } else {
        finished := true;
      }
    }

    /** The "Quit Challenge" button, shown only while a quiz is running: back
        to the start screen, keeping the questions, the position and the score. */
    method Quit()
      requires Valid() && started && !finished
      modifies this
      ensures Valid() && !started && !finished
      ensures questions == old(questions) && current == old(current) && score == old(score)
    {
      started, finished := false, false;
    }
  }
}
