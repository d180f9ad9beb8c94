/** The parts a machine is built from: the carry-over reduction, rotor
    wirings, reflectors, the plugboard and the rotor itself. Only their
    use by the machine is part of this model, so each is given by the
    behaviour the machine relies on, stated as a validity predicate. */
module Components {

  /** Number of contacts on every wheel, and of symbols. */
  const Size := 26

  predicate IsSymbol(x: int) { 0 <= x < Size }

  /** `carryOver`: wraps any integer, negative ones included, onto a
      contact in [0, 26) with the same remainder. Dafny's `%` is Euclidean,
      so negative intermediates wrap instead of truncating. */
  function Carry(x: int): (r: int)
    ensures IsSymbol(r)
  {
    x % Size
  }

  lemma CarryOfSymbol(x: int)
    requires IsSymbol(x)
    ensures Carry(x) == x
  {
  }

  /** Reducing an intermediate value early does not change the final contact. */
  lemma CarryAbsorbs(x: int, y: int)
    ensures Carry(Carry(x) + y) == Carry(x + y)
  {
  }

  /** A rotor's wiring: the contact reached going inwards from each
      contact, and, going outwards, its inverse. Both directions are
      given, as the same wires carry the signal back. */
  datatype Wiring = Wiring(forward: seq<int>, backward: seq<int>) {

    /** The wiring is a bijection on the 26 contacts and `backward` is its inverse. */
    ghost predicate Valid()
    {
      |forward| == Size && |backward| == Size &&
      (forall x :: 0 <= x < Size ==> IsSymbol(forward[x]) && backward[forward[x]] == x) &&
      (forall y :: 0 <= y < Size ==> IsSymbol(backward[y]) && forward[backward[y]] == y)
    }

    /** `inwardsOutputOf`: the contact the signal leaves at, going inwards. */
    function Inwards(x: int): (y: int)
      requires Valid() && IsSymbol(x)
      ensures IsSymbol(y) && backward[y] == x
    {
      forward[x]
    }

    /** `outwardsOutputOf`: the contact the signal leaves at, going outwards. */
    function Outwards(y: int): (x: int)
      requires Valid() && IsSymbol(y)
      ensures IsSymbol(x) && forward[x] == y
    {
      backward[y]
    }
  }

  /** A reflector: a fixed wiring that sends the signal back into the rotors. */
  datatype Reflector = Reflector(wiring: seq<int>) {

    /** The wiring pairs contacts: it is an involution on [0, 26). */
    ghost predicate Valid()
    {
      |wiring| == Size &&
      forall x :: 0 <= x < Size ==> IsSymbol(wiring[x]) && wiring[wiring[x]] == x
    }

    /** No contact is wired to itself, as on the historical reflectors. */
    ghost predicate NoFixedPoint()
    {
      forall x :: 0 <= x < |wiring| ==> wiring[x] != x
    }

    /** `outputOf`: the contact the signal comes back on; its partner is the input. */
    function OutputOf(x: int): (y: int)
      requires Valid() && IsSymbol(x)
      ensures IsSymbol(y) && wiring[y] == x
    {
      wiring[x]
    }
  }

  /** The plugboard: the symbols that are plugged to a partner; every other
      symbol passes through unchanged. */
  datatype Plugboard = Plugboard(pairs: map<int, int>) {

    /** Every cable joins two symbols in both directions. */
    ghost predicate Valid()
    {
      forall x :: x in pairs ==> IsSymbol(x) && pairs[x] in pairs && pairs[pairs[x]] == x
    }

    /** `swappedWith`: the partner of a plugged symbol, otherwise the symbol itself. */
    function SwappedWith(x: int): (y: int)
      requires Valid() && IsSymbol(x)
      ensures IsSymbol(y)
      ensures x in pairs ==> y in pairs && pairs[y] == x
      ensures x !in pairs ==> y == x
    {
      if x in pairs then pairs[x] else x
    }
  }

  /** The plugboard exchanges symbols in pairs: swapping twice restores the symbol. */
  lemma SwappedTwice(plugboard: Plugboard, x: int)
    requires plugboard.Valid() && IsSymbol(x)
    ensures plugboard.SwappedWith(plugboard.SwappedWith(x)) == x
  {
  }

  /** A rotor in a machine. Its wiring and its transfer notches belong to
      the rotor type and never change; its position turns with the
      keypresses, relative to its ring offset. */
  class Rotor {
    const wiring: Wiring
    const notches: seq<int>
    var position: int
    const offset: int

    ghost predicate Valid()
      reads this
    {
      wiring.Valid() && IsSymbol(position) && IsSymbol(offset)
    }

    constructor (wiring: Wiring, notches: seq<int>, position: int, offset: int)
      requires wiring.Valid() && IsSymbol(position) && IsSymbol(offset)
      ensures Valid()
      ensures this.wiring == wiring && this.notches == notches
      ensures this.position == position && this.offset == offset
    {
      this.wiring := wiring;
      this.notches := notches;
      this.position := position;
      this.offset := offset;
    }

    /** `incrementPosition`: turns the rotor one contact on, from Z back to A. */
    method IncrementPosition()
      requires Valid()
      modifies this
      ensures Valid()
      ensures position == Carry(old(position) + 1)
    {
      position := Carry(position + 1);
    }
  }
}
