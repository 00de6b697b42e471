// Memory match: sixteen face-down cards, each of eight icons twice.  Two
// cards are turned per move; a pair stays solved, a mismatch is turned back
// by a delayed flip-back, which is its own event here.

module MemoryMatch {

  const ICONS: seq<string> := [
    "\U{1F525}", "\U{2B50}", "\U{1F48E}", "\U{1F340}",
    "\U{1F34E}", "\U{1F319}", "\U{2600}\U{FE0F}", "\U{26A1}"
  ]

  datatype Card = Card(id: nat, icon: string)

  /** The deck initGame builds from a shuffled copy of the icons, doubled:
      the card at position i gets id i. */
  function Deck(order: seq<string>): (cards: seq<Card>)
    ensures |cards| == |order|
    ensures forall i :: 0 <= i < |order| ==> cards[i] == Card(i, order[i])
  {
    seq(|order|, i requires 0 <= i < |order| => Card(i, order[i]))
  }

  lemma IconsDistinct()
    ensures forall i, j :: 0 <= i < j < |ICONS| ==> ICONS[i] != ICONS[j]
  {
  }

  /** In a list without repeats each member occurs once. */
  lemma {:induction false} OccursOnce(s: seq<string>, x: string)
    requires forall i, j :: 0 <= i < j < |s| ==> s[i] != s[j]
    ensures multiset(s)[x] == if x in s then 1 else 0
  {
    if s != [] {
      var t := s[..|s| - 1];
      OccursOnce(t, x);
      assert s == t + [s[|s| - 1]];
    }
  }

  /** Every icon lies twice in the doubled list, and nothing else does. */
  lemma DoubledIcons(ic: string)
    ensures multiset(ICONS + ICONS)[ic] == if ic in ICONS then 2 else 0
  {
    IconsDistinct();
    OccursOnce(ICONS, ic);
  }

  /** initGame's deck has sixteen cards with ids 0..15, each icon on exactly two of them. */
  lemma DeckHasPairs(order: seq<string>, ic: string)
    requires multiset(order) == multiset(ICONS + ICONS)
    ensures |Deck(order)| == 16
    ensures forall i :: 0 <= i < 16 ==> Deck(order)[i].id == i
    ensures multiset(order)[ic] == if ic in ICONS then 2 else 0
  {
    DoubledIcons(ic);
    assert |order| == |multiset(order)| == |ICONS + ICONS|;
  }

  predicate NoDuplicates(s: seq<nat>) {
    forall i, j :: 0 <= i < j < |s| ==> s[i] != s[j]
  }

  function Elems(s: seq<nat>): set<nat> {
    set x | x in s
  }

  /** A list without repeats has as many members as entries. */
  lemma {:induction false} DistinctCard(s: seq<nat>)
    requires NoDuplicates(s)
    ensures |Elems(s)| == |s|
  {
    if s != [] {
      var rest := s[1..];
      assert NoDuplicates(rest) by {
        forall i, j | 0 <= i < j < |rest| ensures rest[i] != rest[j] {
          assert rest[i] == s[i + 1] && rest[j] == s[j + 1];
        }
      }
      DistinctCard(rest);
      assert s[0] !in rest by {
        forall k | 0 <= k < |rest| ensures rest[k] != s[0] {
          assert rest[k] == s[k + 1];
        }
      }
      assert Elems(s) == {s[0]} + Elems(rest) by {
        assert s == [s[0]] + rest;
      }
    }
  }

  class MemoryMatch {
    var cards: seq<Card>
    var flipped: seq<nat>
    var solved: seq<nat>
    var disabled: bool
    var moves: nat

    /** solved holds distinct ids in equal-icon pairs; at most two cards are
        face up, and two only while the board waits to turn a mismatch back. */
    ghost predicate Valid()
      reads this
    {
      (forall i :: 0 <= i < |cards| ==> cards[i].id == i) &&
      (forall k :: 0 <= k < |flipped| ==> flipped[k] < |cards|) &&
      (forall k :: 0 <= k < |solved| ==> solved[k] < |cards|) &&
      NoDuplicates(solved) && NoDuplicates(flipped) && |flipped| <= 2 &&
      (forall k :: 0 <= k < |flipped| ==> flipped[k] !in solved) &&
      |solved| % 2 == 0 &&
      (forall k :: 0 <= k < |solved| / 2 ==> cards[solved[2 * k]].icon == cards[solved[2 * k + 1]].icon) &&
      (disabled <==> |flipped| == 2) &&
      (|flipped| == 2 ==> cards[flipped[0]].icon != cards[flipped[1]].icon)
    }

    /** The game has not dealt yet when it mounts; the mount effect calls initGame. */
    constructor ()
      ensures Valid() && cards == [] && flipped == [] && solved == [] && !disabled && moves == 0
    {
      cards, flipped, solved, disabled, moves := [], [], [], false, 0;
    }

    /** initGame; order is the shuffled, doubled icon list. */
    method InitGame(order: seq<string>)
      requires multiset(order) == multiset(ICONS + ICONS)
      modifies this
      ensures Valid() && cards == Deck(order) && |cards| == 16
      ensures flipped == [] && solved == [] && !disabled && moves == 0
    {
      DeckHasPairs(order, "");
      cards := Deck(order);
      flipped, solved, disabled, moves := [], [], false, 0;
    }

    /** handleClick on the card with this id. */
    method Click(id: nat)
      requires Valid() && id < |cards|
      modifies this
      ensures Valid() && cards == old(cards)
      ensures old(disabled) || id in old(flipped) || id in old(solved) ==>
                flipped == old(flipped) && solved == old(solved) && disabled == old(disabled) && moves == old(moves)
      ensures !(old(disabled) || id in old(flipped) || id in old(solved)) && |old(flipped)| == 1 ==>
                moves == old(moves) + 1 &&
                if cards[old(flipped)[0]].icon == cards[id].icon then
                  solved == old(solved) + [old(flipped)[0], id] && flipped == [] && !disabled
                else
                  solved == old(solved) && flipped == old(flipped) + [id] && disabled
      ensures !(old(disabled) || id in old(flipped) || id in old(solved)) && |old(flipped)| != 1 ==>
                flipped == [id] && solved == old(solved) && moves == old(moves) && !disabled
    {
      if disabled || id in flipped || id in solved {
        return;
      }
      if |flipped| == 1 {
        disabled := true;
        var first := flipped[0];
        flipped := flipped + [id];
        moves := moves + 1;
        if cards[first].icon == cards[id].icon {
          var n := |solved|;
          solved := solved + [first, id];
          assert solved[2 * (n / 2)] == first && solved[2 * (n / 2) + 1] == id;
          flipped := [];
          disabled := false;
        }
      } else {
        flipped := [id];
      }
    }

    /** The delayed flip-back after a mismatch. */
    method FlipBack()
      requires Valid()
      modifies this
      ensures Valid() && flipped == [] && !disabled
      ensures cards == old(cards) && solved == old(solved) && moves == old(moves)
    {
      flipped := [];
      disabled := false;
    }

    predicate Won()
      reads this
    {
      |solved| == |cards| && |cards| > 0
    }

    /** The win test on lengths means every card has been solved. */
    lemma WonIffAllSolved()
      requires Valid()
      ensures Won() <==> |cards| > 0 && forall i :: 0 <= i < |cards| ==> i in solved
    {
      var ids := Elems(Range(|cards|));
      var s := Elems(solved);
      forall x | x in s ensures x in ids {
        assert Range(|cards|)[x] == x;
      }
      DistinctCard(solved);
      RangeCard(|cards|);
      if |solved| == |cards| {
        assert |ids - s| == 0;
        assert ids - s == {};
        forall i | 0 <= i < |cards| ensures i in solved {
          assert Range(|cards|)[i] == i;
          assert i in ids;
        }
      }
      if |cards| > 0 && forall i :: 0 <= i < |cards| ==> i in solved {
        forall x | x in ids ensures x in s {
          assert x < |cards|;
        }
        assert ids == s;
      }
    }
  }

  /** The ids 0..n-1 in order. */
  function Range(n: nat): (r: seq<nat>)
    ensures |r| == n && forall i :: 0 <= i < n ==> r[i] == i
  {
    if n == 0 then [] else Range(n - 1) + [n - 1]
  }

  lemma RangeCard(n: nat)
    ensures |Elems(Range(n))| == n
  {
    DistinctCard(Range(n));
  }
}
