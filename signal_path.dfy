/** The electrical path of one keypress on the four-rotor machine, for a
    fixed post-step state, and its extension to a whole text. */
module SignalPath {
  import opened Components
  import opened Stepping

  /** What a keypress never changes about a rotor: its type and its ring offset. */
  datatype RotorSetting = RotorSetting(wiring: Wiring, notches: seq<int>, offset: int) {
    ghost predicate Valid()
    {
      wiring.Valid() && IsSymbol(offset)
    }
  }

  /** Everything about a four-rotor machine except the positions of the
      three stepping rotors. The greek rotor does not step, so its position
      belongs here. */
  datatype Config = Config(right: RotorSetting, middle: RotorSetting, left: RotorSetting,
                           greek: RotorSetting, greekPosition: int,
                           plugboard: Plugboard, reflector: Reflector) {
    ghost predicate Valid()
    {
      right.Valid() && middle.Valid() && left.Valid() && greek.Valid() &&
      IsSymbol(greekPosition) && plugboard.Valid() && reflector.Valid()
    }
  }

  /** One keypress of the stepping mechanism with this machine's notches. */
  function StepOnce(c: Config, p: Positions): (q: Positions)
    requires p.Valid()
    ensures q.Valid()
  {
    Step(p, c.middle.notches, c.right.notches)
  }

  /** How far a rotor's wiring is turned against the fixed contacts. */
  function Shift(position: int, offset: int): (shift: int)
  {
    position - offset
  }

  /** One rotor on the signal's way: its wiring, turned by its shift. */
  datatype Stage = Stage(wiring: Wiring, shift: int)

  ghost predicate ValidStages(stages: seq<Stage>)
  {
    forall i :: 0 <= i < |stages| ==> stages[i].wiring.Valid()
  }

  /** The rotors in the order the signal meets them on the way in: right,
      middle, left, greek. */
  function Stages(c: Config, p: Positions): (stages: seq<Stage>)
    requires c.Valid()
    ensures |stages| == 4 && ValidStages(stages)
  {
    [Stage(c.right.wiring, Shift(p.right, c.right.offset)),
     Stage(c.middle.wiring, Shift(p.middle, c.middle.offset)),
     Stage(c.left.wiring, Shift(p.left, c.left.offset)),
     Stage(c.greek.wiring, Shift(c.greekPosition, c.greek.offset))]
  }

  /** One rotor on the way in: enter its turned frame, cross its wiring, leave the frame. */
  function RotorInward(w: Wiring, shift: int, x: int): (y: int)
    requires w.Valid() && IsSymbol(x)
    ensures IsSymbol(y)
  {
    Carry(w.Inwards(Carry(x + shift)) - shift)
  }

  /** One rotor on the way out, through the same wires in the other direction. */
  function RotorOutward(w: Wiring, shift: int, y: int): (x: int)
    requires w.Valid() && IsSymbol(y)
    ensures IsSymbol(x)
  {
    Carry(w.Outwards(Carry(y + shift)) - shift)
  }

  /** Going out through a rotor undoes going in through it, and the reverse. */
  lemma RotorStageInverse(w: Wiring, shift: int, x: int)
    requires w.Valid() && IsSymbol(x)
    ensures RotorOutward(w, shift, RotorInward(w, shift, x)) == x
    ensures RotorInward(w, shift, RotorOutward(w, shift, x)) == x
  {
    var a := Carry(x + shift);
    CarryAbsorbs(w.Inwards(a) - shift, shift);
    CarryOfSymbol(w.Inwards(a));
    CarryAbsorbs(x + shift, -shift);
    CarryOfSymbol(x);
    CarryAbsorbs(w.Outwards(a) - shift, shift);
    CarryOfSymbol(w.Outwards(a));
  }

  /** The way in, through the stages in order. */
  function Inward(stages: seq<Stage>, x: int): (y: int)
    requires ValidStages(stages) && IsSymbol(x)
    ensures IsSymbol(y)
    decreases |stages|
  {
    if stages == [] then x
    else Inward(stages[1..], RotorInward(stages[0].wiring, stages[0].shift, x))
  }

  /** The way out, through the stages in reverse order. */
  function Outward(stages: seq<Stage>, y: int): (x: int)
    requires ValidStages(stages) && IsSymbol(y)
    ensures IsSymbol(x)
    decreases |stages|
  {
    if stages == [] then y
    else RotorOutward(stages[0].wiring, stages[0].shift, Outward(stages[1..], y))
  }

  /** The way out is the inverse of the way in, for any stack of rotors. */
  lemma {:induction false} OutwardInvertsInward(stages: seq<Stage>, x: int)
    requires ValidStages(stages) && IsSymbol(x)
    ensures Outward(stages, Inward(stages, x)) == x
    ensures Inward(stages, Outward(stages, x)) == x
    decreases |stages|
  {
    if stages != [] {
      var s, rest := stages[0], stages[1..];
      assert ValidStages(rest);
      var y := RotorInward(s.wiring, s.shift, x);
      OutwardInvertsInward(rest, y);
      RotorStageInverse(s.wiring, s.shift, x);
      var z := Outward(rest, x);
      RotorStageInverse(s.wiring, s.shift, z);
      OutwardInvertsInward(rest, x);
    }
  }

  /** The substitution of one keypress at fixed rotor positions: plugboard,
      the rotors inwards, the thin reflector, the rotors outwards, plugboard. */
  function Circuit(c: Config, p: Positions, input: int): (output: int)
    requires c.Valid() && IsSymbol(input)
    ensures IsSymbol(output)
  {
    var stages := Stages(c, p);
    c.plugboard.SwappedWith(Outward(stages, c.reflector.OutputOf(Inward(stages, c.plugboard.SwappedWith(input)))))
  }

  /** The signal path of `use(int)` as the code computes it, after stepping. */
  function Path(c: Config, p: Positions, input: int): (output: int)
    requires c.Valid() && IsSymbol(input)
    ensures IsSymbol(output)
  {
    var plugged := c.plugboard.SwappedWith(input);
    var reflected := c.reflector.OutputOf(PathIn(c, p, plugged));
    c.plugboard.SwappedWith(PathOut(c, p, reflected))
  }

  /** The code's way in, right to middle to left to greek rotor. Between two
      rotors the signal is moved by the difference of their
      `position - offset`; every intermediate value is carried onto [0, 26). */
  function PathIn(c: Config, p: Positions, x: int): (y: int)
    requires c.Valid() && IsSymbol(x)
    ensures IsSymbol(y)
  {
    var s0 := Carry(x + Shift(p.right, c.right.offset));
    var s1 := c.right.wiring.Inwards(s0);
    var s2 := Carry(s1 - Shift(p.right, c.right.offset) + Shift(p.middle, c.middle.offset));
    var s3 := c.middle.wiring.Inwards(s2);
    var s4 := Carry(s3 - Shift(p.middle, c.middle.offset) + Shift(p.left, c.left.offset));
    var s5 := c.left.wiring.Inwards(s4);
    var s6 := Carry(s5 - Shift(p.left, c.left.offset) + Shift(c.greekPosition, c.greek.offset));
    var s7 := c.greek.wiring.Inwards(s6);
    Carry(s7 - Shift(c.greekPosition, c.greek.offset))
  }

  /** The code's way out, greek to left to middle to right rotor. */
  function PathOut(c: Config, p: Positions, y: int): (x: int)
    requires c.Valid() && IsSymbol(y)
    ensures IsSymbol(x)
  {
    var t0 := Carry(y + Shift(c.greekPosition, c.greek.offset));
    var t1 := c.greek.wiring.Outwards(t0);
    var t2 := Carry(t1 - Shift(c.greekPosition, c.greek.offset) + Shift(p.left, c.left.offset));
    var t3 := c.left.wiring.Outwards(t2);
    var t4 := Carry(t3 - Shift(p.left, c.left.offset) + Shift(p.middle, c.middle.offset));
    var t5 := c.middle.wiring.Outwards(t4);
    var t6 := Carry(t5 - Shift(p.middle, c.middle.offset) + Shift(p.right, c.right.offset));
    var t7 := c.right.wiring.Outwards(t6);
    Carry(t7 - Shift(p.right, c.right.offset))
  }

  /** Leaving one rotor's frame and entering the next one's in a single
      carry, as the code does, is the same as doing it in two steps. */
  lemma HopIn(w: Wiring, from: int, to: int, x: int)
    requires w.Valid() && IsSymbol(x)
    ensures Carry(w.Inwards(Carry(x + from)) - from + to) == Carry(RotorInward(w, from, x) + to)
  {
    CarryAbsorbs(w.Inwards(Carry(x + from)) - from, to);
  }

  /** The same junction on the way out. */
  lemma HopOut(w: Wiring, from: int, to: int, y: int)
    requires w.Valid() && IsSymbol(y)
    ensures Carry(w.Outwards(Carry(y + from)) - from + to) == Carry(RotorOutward(w, from, y) + to)
  {
    CarryAbsorbs(w.Outwards(Carry(y + from)) - from, to);
  }

  /** Four rotors in a row on the way in, with the junctions fused as in
      the code, are the four rotor stages one after the other. */
  lemma FusedInward(wR: Wiring, wM: Wiring, wL: Wiring, wG: Wiring,
                    sR: int, sM: int, sL: int, sG: int, x: int)
    requires wR.Valid() && wM.Valid() && wL.Valid() && wG.Valid() && IsSymbol(x)
    ensures Carry(wG.Inwards(Carry(wL.Inwards(Carry(wM.Inwards(Carry(wR.Inwards(
              Carry(x + sR)) - sR + sM)) - sM + sL)) - sL + sG)) - sG)
         == RotorInward(wG, sG, RotorInward(wL, sL, RotorInward(wM, sM, RotorInward(wR, sR, x))))
  {
    var r := RotorInward(wR, sR, x);
    var m := RotorInward(wM, sM, r);
    HopIn(wR, sR, sM, x);
    HopIn(wM, sM, sL, r);
    HopIn(wL, sL, sG, m);
  }

  /** The same for four rotors on the way out. */
  lemma FusedOutward(wG: Wiring, wL: Wiring, wM: Wiring, wR: Wiring,
                     sG: int, sL: int, sM: int, sR: int, y: int)
    requires wG.Valid() && wL.Valid() && wM.Valid() && wR.Valid() && IsSymbol(y)
    ensures Carry(wR.Outwards(Carry(wM.Outwards(Carry(wL.Outwards(Carry(wG.Outwards(
              Carry(y + sG)) - sG + sL)) - sL + sM)) - sM + sR)) - sR)
         == RotorOutward(wR, sR, RotorOutward(wM, sM, RotorOutward(wL, sL, RotorOutward(wG, sG, y))))
  {
    var g := RotorOutward(wG, sG, y);
    var l := RotorOutward(wL, sL, g);
    HopOut(wG, sG, sL, y);
    HopOut(wL, sL, sM, g);
    HopOut(wM, sM, sR, l);
  }

  /** Through four stages, one at a time. */
  lemma InwardFour(stages: seq<Stage>, x: int)
    requires |stages| == 4 && ValidStages(stages) && IsSymbol(x)
    ensures Inward(stages, x) ==
            RotorInward(stages[3].wiring, stages[3].shift, RotorInward(stages[2].wiring, stages[2].shift,
              RotorInward(stages[1].wiring, stages[1].shift, RotorInward(stages[0].wiring, stages[0].shift, x))))
  {
    var s1 := stages[1..];
    var s2 := s1[1..];
    var s3 := s2[1..];
    assert s1[0] == stages[1] && s2[0] == stages[2] && s3[0] == stages[3] && s3[1..] == [];
    var r := RotorInward(stages[0].wiring, stages[0].shift, x);
    var m := RotorInward(stages[1].wiring, stages[1].shift, r);
    var l := RotorInward(stages[2].wiring, stages[2].shift, m);
    var g := RotorInward(stages[3].wiring, stages[3].shift, l);
    assert Inward(s3[1..], g) == g;
    assert Inward(s3, l) == g;
    assert Inward(s2, m) == Inward(s3, l);
    assert Inward(s1, r) == Inward(s2, m);
  }

  /** Back through four stages, one at a time. */
  lemma OutwardFour(stages: seq<Stage>, y: int)
    requires |stages| == 4 && ValidStages(stages) && IsSymbol(y)
    ensures Outward(stages, y) ==
            RotorOutward(stages[0].wiring, stages[0].shift, RotorOutward(stages[1].wiring, stages[1].shift,
              RotorOutward(stages[2].wiring, stages[2].shift, RotorOutward(stages[3].wiring, stages[3].shift, y))))
  {
    var s1 := stages[1..];
    var s2 := s1[1..];
    var s3 := s2[1..];
    assert s1[0] == stages[1] && s2[0] == stages[2] && s3[0] == stages[3] && s3[1..] == [];
    var g := RotorOutward(stages[3].wiring, stages[3].shift, y);
    var l := RotorOutward(stages[2].wiring, stages[2].shift, g);
    var m := RotorOutward(stages[1].wiring, stages[1].shift, l);
    assert Outward(s3[1..], y) == y;
    assert Outward(s3, y) == g;
    assert Outward(s2, y) == l;
    assert Outward(s1, y) == m;
  }

  /** The code's way in, seen as one fused chain over the four shifts of `Stages`. */
  lemma PathInFused(c: Config, p: Positions, x: int)
    requires c.Valid() && IsSymbol(x)
    ensures PathIn(c, p, x) ==
            Carry(c.greek.wiring.Inwards(Carry(c.left.wiring.Inwards(Carry(c.middle.wiring.Inwards(Carry(c.right.wiring.Inwards(
              Carry(x + Shift(p.right, c.right.offset))) - Shift(p.right, c.right.offset) + Shift(p.middle, c.middle.offset)))
              - Shift(p.middle, c.middle.offset) + Shift(p.left, c.left.offset))) - Shift(p.left, c.left.offset)
              + Shift(c.greekPosition, c.greek.offset))) - Shift(c.greekPosition, c.greek.offset))
  {
  }

  /** The code's way out, seen as one fused chain over the four shifts of `Stages`. */
  lemma PathOutFused(c: Config, p: Positions, y: int)
    requires c.Valid() && IsSymbol(y)
    ensures PathOut(c, p, y) ==
            Carry(c.right.wiring.Outwards(Carry(c.middle.wiring.Outwards(Carry(c.left.wiring.Outwards(Carry(c.greek.wiring.Outwards(
              Carry(y + Shift(c.greekPosition, c.greek.offset))) - Shift(c.greekPosition, c.greek.offset) + Shift(p.left, c.left.offset)))
              - Shift(p.left, c.left.offset) + Shift(p.middle, c.middle.offset))) - Shift(p.middle, c.middle.offset)
              + Shift(p.right, c.right.offset))) - Shift(p.right, c.right.offset))
  {
  }

  /** The code's way in is the right, middle, left and greek rotor stages in turn. */
  lemma PathInRotorByRotor(c: Config, p: Positions, x: int)
    requires c.Valid() && IsSymbol(x)
    ensures PathIn(c, p, x) ==
            RotorInward(c.greek.wiring, Shift(c.greekPosition, c.greek.offset),
              RotorInward(c.left.wiring, Shift(p.left, c.left.offset),
                RotorInward(c.middle.wiring, Shift(p.middle, c.middle.offset),
                  RotorInward(c.right.wiring, Shift(p.right, c.right.offset), x))))
  {
    PathInFused(c, p, x);
    FusedInward(c.right.wiring, c.middle.wiring, c.left.wiring, c.greek.wiring,
                Shift(p.right, c.right.offset), Shift(p.middle, c.middle.offset),
                Shift(p.left, c.left.offset), Shift(c.greekPosition, c.greek.offset), x);
  }

  /** The code's way out is the greek, left, middle and right rotor stages in turn. */
  lemma PathOutRotorByRotor(c: Config, p: Positions, y: int)
    requires c.Valid() && IsSymbol(y)
    ensures PathOut(c, p, y) ==
            RotorOutward(c.right.wiring, Shift(p.right, c.right.offset),
              RotorOutward(c.middle.wiring, Shift(p.middle, c.middle.offset),
                RotorOutward(c.left.wiring, Shift(p.left, c.left.offset),
                  RotorOutward(c.greek.wiring, Shift(c.greekPosition, c.greek.offset), y))))
  {
    PathOutFused(c, p, y);
    FusedOutward(c.greek.wiring, c.left.wiring, c.middle.wiring, c.right.wiring,
                 Shift(c.greekPosition, c.greek.offset), Shift(p.left, c.left.offset),
                 Shift(p.middle, c.middle.offset), Shift(p.right, c.right.offset), y);
  }

  /** The code's adjustments on the way in are exactly the per-rotor shifts:
      each one is the difference of the two neighbours' `position - offset`. */
  lemma PathInIsInward(c: Config, p: Positions, x: int)
    requires c.Valid() && IsSymbol(x)
    ensures PathIn(c, p, x) == Inward(Stages(c, p), x)
  {
    PathInRotorByRotor(c, p, x);
    InwardFour(Stages(c, p), x);
  }

  /** The code's adjustments on the way out are the negated ones of the way
      in, in the reverse order. */
  lemma PathOutIsOutward(c: Config, p: Positions, y: int)
    requires c.Valid() && IsSymbol(y)
    ensures PathOut(c, p, y) == Outward(Stages(c, p), y)
  {
    PathOutRotorByRotor(c, p, y);
    OutwardFour(Stages(c, p), y);
  }

  /** So the code's path is the reflector seen through the plugboard and the rotors. */
  lemma PathIsCircuit(c: Config, p: Positions, x: int)
    requires c.Valid() && IsSymbol(x)
    ensures Path(c, p, x) == Circuit(c, p, x)
  {
    var plugged := c.plugboard.SwappedWith(x);
    PathInIsInward(c, p, plugged);
    PathOutIsOutward(c, p, c.reflector.OutputOf(Inward(Stages(c, p), plugged)));
  }

  /** Reciprocity: at one rotor state, enciphering the output gives back the input. */
  lemma CircuitReciprocal(c: Config, p: Positions, x: int)
    requires c.Valid() && IsSymbol(x)
    ensures Circuit(c, p, Circuit(c, p, x)) == x
  {
    var stages := Stages(c, p);
    var plugged := c.plugboard.SwappedWith(x);
    var inner := Inward(stages, plugged);
    var reflected := c.reflector.OutputOf(inner);
    var outer := Outward(stages, reflected);
    SwappedTwice(c.plugboard, outer);
    OutwardInvertsInward(stages, reflected);
    OutwardInvertsInward(stages, plugged);
    SwappedTwice(c.plugboard, x);
  }

  /** At one rotor state, two inputs with one output are equal. */
  lemma CircuitInjective(c: Config, p: Positions, x: int, y: int)
    requires c.Valid() && IsSymbol(x) && IsSymbol(y)
    requires Circuit(c, p, x) == Circuit(c, p, y)
    ensures x == y
  {
    CircuitReciprocal(c, p, x);
    CircuitReciprocal(c, p, y);
  }

  /** At one rotor state, every output comes from some input: the output itself. */
  lemma CircuitSurjective(c: Config, p: Positions, y: int)
    requires c.Valid() && IsSymbol(y)
    ensures exists x :: IsSymbol(x) && Circuit(c, p, x) == y
  {
    CircuitReciprocal(c, p, y);
  }

  /** At one rotor state, the circuit is one-to-one on [0, 26). */
  lemma CircuitOneToOne(c: Config, p: Positions)
    requires c.Valid()
    ensures forall x, y :: IsSymbol(x) && IsSymbol(y) && Circuit(c, p, x) == Circuit(c, p, y) ==> x == y
  {
    forall x, y | IsSymbol(x) && IsSymbol(y) && Circuit(c, p, x) == Circuit(c, p, y)
      ensures x == y
    {
      CircuitInjective(c, p, x, y);
    }
  }

  /** No letter is enciphered as itself when the reflector has no fixed point. */
  lemma NoSelfEncipherment(c: Config, p: Positions, x: int)
    requires c.Valid() && c.reflector.NoFixedPoint() && IsSymbol(x)
    ensures Circuit(c, p, x) != x
  {
    var stages := Stages(c, p);
    var plugged := c.plugboard.SwappedWith(x);
    var inner := Inward(stages, plugged);
    var reflected := c.reflector.OutputOf(inner);
    var outer := Outward(stages, reflected);
    if Circuit(c, p, x) == x {
      // then outer == plugged, so the reflector maps inner to itself
      SwappedTwice(c.plugboard, outer);
      OutwardInvertsInward(stages, reflected);
      assert false;
    }
  }

  /** The stepping rotors' positions after `n` keypresses. */
  function Advance(c: Config, p: Positions, n: nat): (q: Positions)
    requires p.Valid()
    ensures q.Valid()
    ensures q.right == Carry(p.right + n)
    decreases n
  {
    if n == 0 then p
    else
      var q := Advance(c, StepOnce(c, p), n - 1);
      CarryAbsorbs(p.right + 1, n - 1);
      q
  }

  /** The last of `n + 1` keypresses steps the state reached after `n`. */
  lemma {:induction false} AdvanceLast(c: Config, p: Positions, n: nat)
    requires p.Valid()
    ensures Advance(c, p, n + 1) == StepOnce(c, Advance(c, p, n))
    decreases n
  {
    if n > 0 {
      AdvanceLast(c, StepOnce(c, p), n - 1);
    }
  }

  /** A text of codes, one keypress per code, strictly in order: each
      keypress steps the rotors and then takes its code through the circuit
      of the new positions; the rest of the text starts from there. */
  function Encipher(c: Config, p: Positions, xs: seq<int>): (ys: seq<int>)
    requires c.Valid() && p.Valid()
    requires forall i :: 0 <= i < |xs| ==> IsSymbol(xs[i])
    ensures |ys| == |xs|
    ensures forall i :: 0 <= i < |xs| ==> IsSymbol(ys[i])
    decreases |xs|
  {
    if xs == [] then []
    else
      var q := StepOnce(c, p);
      [Circuit(c, q, xs[0])] + Encipher(c, q, xs[1..])
  }

  /** Code `i` of the text goes through the circuit after `i + 1` keypresses
      have stepped the rotors. */
  lemma {:induction false} EncipherAt(c: Config, p: Positions, xs: seq<int>, i: int)
    requires c.Valid() && p.Valid()
    requires forall j :: 0 <= j < |xs| ==> IsSymbol(xs[j])
    requires 0 <= i < |xs|
    ensures Encipher(c, p, xs)[i] == Circuit(c, Advance(c, p, i + 1), xs[i])
    decreases |xs|
  {
    if i > 0 {
      EncipherAt(c, StepOnce(c, p), xs[1..], i - 1);
    }
  }

  /** One more code at the end of the text comes out after one more keypress. */
  lemma {:induction false} EncipherSnoc(c: Config, p: Positions, xs: seq<int>, x: int)
    requires c.Valid() && p.Valid() && IsSymbol(x)
    requires forall i :: 0 <= i < |xs| ==> IsSymbol(xs[i])
    ensures Encipher(c, p, xs + [x]) == Encipher(c, p, xs) + [Circuit(c, Advance(c, p, |xs| + 1), x)]
    decreases |xs|
  {
    var q := StepOnce(c, p);
    if xs == [] {
      assert Advance(c, p, 1) == q;
    } else {
      assert (xs + [x])[1..] == xs[1..] + [x];
      EncipherSnoc(c, q, xs[1..], x);
    }
  }

  /** Enciphering a text twice from the same starting positions gives the text back. */
  lemma {:induction false} EncipherTwice(c: Config, p: Positions, xs: seq<int>)
    requires c.Valid() && p.Valid()
    requires forall i :: 0 <= i < |xs| ==> IsSymbol(xs[i])
    ensures Encipher(c, p, Encipher(c, p, xs)) == xs
    decreases |xs|
  {
    if xs != [] {
      var q := StepOnce(c, p);
      var ys := Encipher(c, p, xs);
      assert ys[1..] == Encipher(c, q, xs[1..]);
      CircuitReciprocal(c, q, xs[0]);
      EncipherTwice(c, q, xs[1..]);
    }
  }
}
