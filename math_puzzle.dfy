// Math blitz: random arithmetic problems against a 60-second clock.  The
// typed answer is checked on every keystroke; a right one scores a point
// and brings the next problem.

module MathPuzzle {
  import opened Wrappers
  import Catalog

  datatype Op = Plus | Minus | Times

  const OPS: seq<Op> := [Plus, Minus, Times]
  const ROUND_TIME: int := 60

  /** The problem on screen, shown as "n1 op n2", and its answer. */
  datatype Problem = Problem(n1: int, op: Op, n2: int, answer: int)

  /** How many values the first operand draw ranges over for each operator. */
  function FirstRange(op: Op): nat {
    match op
    case Plus => 50
    case Minus => 50
    case Times => 12
  }

  /** How many values the second operand draw ranges over, given the first operand. */
  function SecondRange(op: Op, n1: int): nat {
    match op
    case Plus => 50
    case Minus => if n1 > 0 then n1 else 0
    case Times => 10
  }

  function FirstOperand(op: Op, d1: nat): int {
    match op
    case Plus => d1 + 1
    case Minus => d1 + 20
    case Times => d1 + 2
  }

  /** generateProblem from its draws: d0 picks the operator, d1 and d2 are the
      floor(random * k) values behind the two operands. */
  function GenerateProblem(d0: nat, d1: nat, d2: nat): (p: Problem)
    requires d0 < |OPS| && d1 < FirstRange(OPS[d0])
    requires d2 < SecondRange(OPS[d0], FirstOperand(OPS[d0], d1))
    ensures p.op == OPS[d0]
    ensures p.op == Plus ==> 1 <= p.n1 <= 50 && 1 <= p.n2 <= 50 && p.answer == p.n1 + p.n2
    ensures p.op == Minus ==> 20 <= p.n1 <= 69 && 1 <= p.n2 <= p.n1 && p.answer == p.n1 - p.n2 &&
                              0 <= p.answer <= 68
    ensures p.op == Times ==> 2 <= p.n1 <= 13 && 1 <= p.n2 <= 10 && p.answer == p.n1 * p.n2
  {
    var op := OPS[d0];
    var n1 := FirstOperand(op, d1);
    var n2 := d2 + 1;
    match op
    case Plus => Problem(n1, op, n2, n1 + n2)
    case Minus => Problem(n1, op, n2, n1 - n2)
    case Times => Problem(n1, op, n2, n1 * n2)
  }

  // ---------------------------------------------------------------------------
  // parseInt, for decimal input

  predicate IsDigit(ch: char) {
    '0' <= ch <= '9'
  }

  function DigitValue(ch: char): nat
    requires IsDigit(ch)
  {
    ch as int - '0' as int
  }

  function DigitChar(d: nat): char
    requires d < 10
  {
    (d + '0' as int) as char
  }

  /** The longest prefix of s made of decimal digits. */
  function LeadingDigits(s: string): (r: string)
    ensures |r| <= |s| && r == s[..|r|]
    ensures forall i :: 0 <= i < |r| ==> IsDigit(r[i])
    ensures |r| < |s| ==> !IsDigit(s[|r|])
  {
    if s != [] && IsDigit(s[0]) then [s[0]] + LeadingDigits(s[1..]) else []
  }

  /** The value of a digit string, most significant digit first. */
  function DigitsValue(d: string): nat
    requires forall i :: 0 <= i < |d| ==> IsDigit(d[i])
  {
    if d == [] then 0 else 10 * DigitsValue(d[..|d| - 1]) + DigitValue(d[|d| - 1])
  }

  function SkipSpaces(s: string): string {
    if s != [] && Catalog.IsJsSpace(s[0]) then SkipSpaces(s[1..]) else s
  }

  /** parseInt(s) with no radix: leading white space, an optional sign, then as
      many decimal digits as follow; None stands for NaN. */
  function ParseInt(s: string): Option<int> {
    var t := SkipSpaces(s);
    var negative := t != [] && t[0] == '-';
    var rest := if t != [] && (t[0] == '-' || t[0] == '+') then t[1..] else t;
    var digits := LeadingDigits(rest);
    var value: int := DigitsValue(digits);
    if digits == [] then None
    else if negative then Some(-value)
    else Some(value)
  }

  /** The decimal digits of n, as Number.prototype.toString writes them. */
  function Decimal(n: nat): (r: string)
    ensures r != [] && forall i :: 0 <= i < |r| ==> IsDigit(r[i])
  {
    if n < 10 then [DigitChar(n)] else Decimal(n / 10) + [DigitChar(n % 10)]
  }

  function ToDecimalString(i: int): string {
    if i < 0 then "-" + Decimal(-i) else Decimal(i)
  }

  lemma {:induction false} DecimalValue(n: nat)
    ensures DigitsValue(Decimal(n)) == n
  {
    if n >= 10 {
      DecimalValue(n / 10);
      var r := Decimal(n);
      assert r[..|r| - 1] == Decimal(n / 10);
    }
  }

  lemma {:induction false} LeadingDigitsAll(s: string)
    requires forall i :: 0 <= i < |s| ==> IsDigit(s[i])
    ensures LeadingDigits(s) == s
  {
    if s != [] {
      LeadingDigitsAll(s[1..]);
    }
  }

  /** parseInt reads back every integer that toString writes, so typing the
      answer always counts as typing the answer. */
  lemma ParseIntRoundTrip(i: int)
    ensures ParseInt(ToDecimalString(i)) == Some(i)
  {
    var n := if i < 0 then -i else i;
    var s := ToDecimalString(i);
    DecimalValue(n);
    LeadingDigitsAll(Decimal(n));
    assert !Catalog.IsJsSpace(s[0]);
    if i < 0 {
      assert s[1..] == Decimal(n);
    }
  }

  /** Text with no digit where the number should start parses to NaN. */
  lemma ParseIntNoDigits(s: string)
    requires s == [] || (!IsDigit(s[0]) && s[0] != '-' && s[0] != '+' && !Catalog.IsJsSpace(s[0]))
    ensures ParseInt(s) == None
  {
  }

  // ---------------------------------------------------------------------------
  // The game

  class MathPuzzle {
    var problem: Problem
    var userInput: string
    var score: int
    var timeLeft: int
    var gameActive: bool

    ghost predicate Valid()
      reads this
    {
      score >= 0 && 0 <= timeLeft <= ROUND_TIME && (gameActive ==> timeLeft >= 1)
    }

    constructor ()
      ensures Valid()
      ensures problem == Problem(0, Plus, 0, 0) && userInput == "" && score == 0
      ensures timeLeft == ROUND_TIME && !gameActive
    {
      problem := Problem(0, Plus, 0, 0);
      userInput := "";
      score, timeLeft, gameActive := 0, ROUND_TIME, false;
    }

    /** One second of the countdown, which only runs while the game is on. */
    method Tick()
      requires Valid()
      modifies this
      ensures Valid()
      ensures score == old(score) && problem == old(problem) && userInput == old(userInput)
      ensures !old(gameActive) ==> timeLeft == old(timeLeft) && !gameActive
      ensures old(gameActive) && old(timeLeft) <= 1 ==> timeLeft == 0 && !gameActive
      ensures old(gameActive) && old(timeLeft) > 1 ==> timeLeft == old(timeLeft) - 1 && gameActive
    {
      if !(gameActive && timeLeft > 0) {
        return;
      }
      if timeLeft <= 1 {
        gameActive := false;
        timeLeft := 0;
      } else {
        timeLeft := timeLeft - 1;
      }
    }

    /** handleInputChange; the draws are those of the next problem, used on a right answer. */
    method InputChange(val: string, d0: nat, d1: nat, d2: nat)
      requires Valid()
      requires d0 < |OPS| && d1 < FirstRange(OPS[d0])
      requires d2 < SecondRange(OPS[d0], FirstOperand(OPS[d0], d1))
      modifies this
      ensures Valid()
      ensures timeLeft == old(timeLeft) && gameActive == old(gameActive)
      ensures ParseInt(val) == Some(old(problem).answer) ==>
                score == old(score) + 1 && problem == GenerateProblem(d0, d1, d2) && userInput == ""
      ensures ParseInt(val) != Some(old(problem).answer) ==>
                score == old(score) && problem == old(problem) && userInput == val
    {
      userInput := val;
      var numVal := ParseInt(val);
      if numVal.Some? && numVal.value == problem.answer {
        score := score + 1;
        problem := GenerateProblem(d0, d1, d2);
        userInput := "";
      }
    }

    /** start: score 0, a full minute, and the first problem. */
    method Start(d0: nat, d1: nat, d2: nat)
      requires Valid()
      requires d0 < |OPS| && d1 < FirstRange(OPS[d0])
      requires d2 < SecondRange(OPS[d0], FirstOperand(OPS[d0], d1))
      modifies this
      ensures Valid()
      ensures score == 0 && timeLeft == ROUND_TIME && gameActive
      ensures problem == GenerateProblem(d0, d1, d2) && userInput == ""
    {
      score, timeLeft, gameActive := 0, ROUND_TIME, true;
      problem := GenerateProblem(d0, d1, d2);
      userInput := "";
    }
  }
}
