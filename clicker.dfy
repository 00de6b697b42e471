// The cookie clicker: each click earns the current multiplier, and an
// upgrade trades points for a larger multiplier at a growing cost.

module Clicker {

  const START_COST: nat := 25

  /** floor(cost * 1.8), written on integers as (9 * cost) / 5. */
  function Grow(cost: nat): (r: nat)
    ensures cost >= 2 ==> r > cost
  {
    9 * cost / 5
  }

  /** The upgrade cost after n purchases: 25, then grown once per purchase. */
  function UpgradeCost(n: nat): (c: nat)
    ensures c >= START_COST
  {
    if n == 0 then START_COST else Grow(UpgradeCost(n - 1))
  }

  /** Costs grow strictly with the number of purchases. */
  lemma {:induction false} UpgradeCostIncreasing(m: nat, n: nat)
    requires m < n
    ensures UpgradeCost(m) < UpgradeCost(n)
    decreases n
  {
    if m < n - 1 {
      UpgradeCostIncreasing(m, n - 1);
    }
  }

  class Clicker {
    var points: int
    var multiplier: int
    var cost: int
    var clicks: int

    /** The multiplier counts the purchases made, and the cost is the one the
        purchase count determines; points never go negative. */
    ghost predicate Valid()
      reads this
    {
      points >= 0 && clicks >= 0 && multiplier >= 1 && cost == UpgradeCost(multiplier - 1)
    }

    constructor ()
      ensures Valid()
      ensures points == 0 && multiplier == 1 && cost == START_COST && clicks == 0
    {
      points, multiplier, cost, clicks := 0, 1, START_COST, 0;
    }

    /** handleClick: the click earns the current multiplier. */
    method Click()
      requires Valid()
      modifies this
      ensures Valid()
      ensures points == old(points) + old(multiplier) && clicks == old(clicks) + 1
      ensures multiplier == old(multiplier) && cost == old(cost)
    {
      points := points + multiplier;
      clicks := clicks + 1;
    }

    /** buyUpgrade: only affordable upgrades go through. */
    method BuyUpgrade()
      requires Valid()
      modifies this
      ensures Valid()
      ensures old(points) >= old(cost) ==>
                points == old(points) - old(cost) && multiplier == old(multiplier) + 1 &&
                cost == Grow(old(cost)) && cost > old(cost)
      ensures old(points) < old(cost) ==>
                points == old(points) && multiplier == old(multiplier) && cost == old(cost)
      ensures clicks == old(clicks)
    {
      if points >= cost {
        points := points - cost;
        multiplier := multiplier + 1;
        cost := Grow(cost);
      }
    }
  }
}
