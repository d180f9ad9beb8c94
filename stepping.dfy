/** The stepping mechanism of the machine's base class: what one keypress
    does to the positions of the right, middle and left rotors. The greek
    rotor of the four-rotor machine never takes part. */
module Stepping {
  import opened Components

  /** Positions of the three rotors that the keypress can move. */
  datatype Positions = Positions(right: int, middle: int, left: int) {
    predicate Valid()
    {
      IsSymbol(right) && IsSymbol(middle) && IsSymbol(left)
    }
  }

  function Increment(position: int): (next: int)
  {
    Carry(position + 1)
  }

  /** 1 when the condition holds, otherwise 0. */
  function Count(condition: bool): (n: nat)
  {
    if condition then 1 else 0
  }

  /** `actuateSteppingMechanism` on the pre-step positions and the notches of
      the middle and the right rotor. The two notch checks are independent:
      first the middle rotor on one of its own notches advances itself and
      the left rotor; then, whatever the first check did, the right rotor on
      one of its notches advances the middle rotor; last the right rotor
      advances. A notch listed several times still counts once. */
  function Step(p: Positions, middleNotches: seq<int>, rightNotches: seq<int>): (q: Positions)
    requires p.Valid()
    ensures q.Valid()
    ensures q.right == Carry(p.right + 1)
    ensures q.middle == Carry(p.middle + Count(p.middle in middleNotches) + Count(p.right in rightNotches))
    ensures q.left == Carry(p.left + Count(p.middle in middleNotches))
  {
    var afterMiddleNotch :=
      if p.middle in middleNotches then p.(middle := Increment(p.middle), left := Increment(p.left))
      else p;
    var afterRightNotch :=
      if p.right in rightNotches then afterMiddleNotch.(middle := Increment(afterMiddleNotch.middle))
      else afterMiddleNotch;
    afterRightNotch.(right := Increment(p.right))
  }

  /** The rule as usually told for the historical machine, where the right
      rotor's notch only matters when the middle rotor is not on its own. */
  function HistoricalStep(p: Positions, middleNotches: seq<int>, rightNotches: seq<int>): (q: Positions)
  {
    if p.middle in middleNotches then
      Positions(Increment(p.right), Increment(p.middle), Increment(p.left))
    else if p.right in rightNotches then
      Positions(Increment(p.right), Increment(p.middle), p.left)
    else
      Positions(Increment(p.right), p.middle, p.left)
  }

  /** The mechanism agrees with the historical rule except when the middle and
      the right rotor are both on notches: then the middle rotor moves two
      contacts in one keypress instead of one. */
  lemma StepAgreesWithHistoricalRule(p: Positions, middleNotches: seq<int>, rightNotches: seq<int>)
    requires p.Valid()
    ensures Step(p, middleNotches, rightNotches) == HistoricalStep(p, middleNotches, rightNotches)
            <==> !(p.middle in middleNotches && p.right in rightNotches)
    ensures p.middle in middleNotches && p.right in rightNotches ==>
              Step(p, middleNotches, rightNotches).middle == Carry(p.middle + 2)
  {
    var q := Step(p, middleNotches, rightNotches);
    if p.middle in middleNotches && p.right in rightNotches {
      assert q.middle != HistoricalStep(p, middleNotches, rightNotches).middle;
    }
  }

  /** The double-stepping anomaly over two keypresses: the right rotor on its
      notch moves the middle rotor onto the middle rotor's notch; at the next
      keypress the middle rotor moves again, on its own, together with the left
      rotor. So the middle rotor moves on two consecutive keypresses. */
  lemma DoubleSteppingAnomaly(p: Positions, middleNotches: seq<int>, rightNotches: seq<int>)
    requires p.Valid()
    requires p.right in rightNotches && p.middle !in middleNotches
    requires Increment(p.middle) in middleNotches && Increment(p.right) !in rightNotches
    ensures var q := Step(p, middleNotches, rightNotches);
            var r := Step(q, middleNotches, rightNotches);
            q.middle == Increment(p.middle) && q.left == p.left &&
            r.middle == Carry(p.middle + 2) && r.left == Increment(p.left) &&
            r.right == Carry(p.right + 2)
  {
    var q := Step(p, middleNotches, rightNotches);
    CarryAbsorbs(p.middle + 1, 1);
    CarryAbsorbs(p.right + 1, 1);
  }
}
