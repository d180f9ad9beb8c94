/** The four-rotor machine as an object: three stepping rotors, a static
    greek rotor, a plugboard and a thin reflector. The common base of the
    three- and four-rotor machines (the stepping mechanism and the text
    level) and the four-rotor subclass are one class here. */
module Machine {
  import opened Components
  import opened Stepping
  import opened SignalPath
  import opened Symbols

  /** The fixed part of a rotor, as the signal path sees it. */
  function SettingOf(rotor: Rotor): (s: RotorSetting)
    reads rotor
    ensures rotor.Valid() ==> s.Valid()
  {
    RotorSetting(rotor.wiring, rotor.notches, rotor.offset)
  }

  class EnigmaM4 {
    var rightRotor: Rotor
    var middleRotor: Rotor
    var leftRotor: Rotor
    var plugboard: Plugboard
    var greekRotor: Rotor
    var thinReflector: Reflector

    /** Every part is well formed, and the four rotor slots hold four
        different rotors. */
    ghost predicate Valid()
      reads this, rightRotor, middleRotor, leftRotor, greekRotor
    {
      rightRotor.Valid() && middleRotor.Valid() && leftRotor.Valid() && greekRotor.Valid() &&
      rightRotor != middleRotor && rightRotor != leftRotor && rightRotor != greekRotor &&
      middleRotor != leftRotor && middleRotor != greekRotor && leftRotor != greekRotor &&
      plugboard.Valid() && thinReflector.Valid()
    }

    /** The positions of the three rotors that step. */
    function RotorPositions(): (p: Positions)
      reads this, rightRotor, middleRotor, leftRotor
      ensures p.right == rightRotor.position && p.middle == middleRotor.position
      ensures p.left == leftRotor.position
    {
      Positions(rightRotor.position, middleRotor.position, leftRotor.position)
    }

    /** Everything else the signal path depends on. */
    function Settings(): (c: Config)
      reads this, rightRotor, middleRotor, leftRotor, greekRotor
      ensures Valid() ==> c.Valid()
      ensures c.greekPosition == greekRotor.position
      ensures c.plugboard == plugboard && c.reflector == thinReflector
    {
      Config(SettingOf(rightRotor), SettingOf(middleRotor), SettingOf(leftRotor),
             SettingOf(greekRotor), greekRotor.position, plugboard, thinReflector)
    }

    /** A machine assembled from its parts; which rotor types and reflector a
        new machine gets by default is not part of this model. */
    constructor (right: Rotor, middle: Rotor, left: Rotor, greek: Rotor,
                 plugboard: Plugboard, thinReflector: Reflector)
      requires right.Valid() && middle.Valid() && left.Valid() && greek.Valid()
      requires right != middle && right != left && right != greek
      requires middle != left && middle != greek && left != greek
      requires plugboard.Valid() && thinReflector.Valid()
      ensures Valid()
      ensures rightRotor == right && middleRotor == middle && leftRotor == left
      ensures greekRotor == greek && this.plugboard == plugboard
      ensures this.thinReflector == thinReflector
    {
      rightRotor := right;
      middleRotor := middle;
      leftRotor := left;
      greekRotor := greek;
      this.plugboard := plugboard;
      this.thinReflector := thinReflector;
    }

    /** `actuateSteppingMechanism`: the mechanical part of a keypress. Only
        the positions of the three stepping rotors change, as `Step` says. */
    method ActuateSteppingMechanism()
      requires Valid()
      modifies rightRotor, middleRotor, leftRotor
      ensures Valid()
      ensures Settings() == old(Settings())
      ensures RotorPositions() == StepOnce(Settings(), old(RotorPositions()))
    {
      ghost var p := RotorPositions();
      ghost var c := Settings();
      var i := 0;
      while i < |middleRotor.notches|
        invariant 0 <= i <= |middleRotor.notches|
        invariant Valid() && Settings() == c && RotorPositions() == p
        invariant p.middle !in middleRotor.notches[..i]
      {
        if middleRotor.position == middleRotor.notches[i] {
          middleRotor.IncrementPosition();
          leftRotor.IncrementPosition();
          break;
        }
        i := i + 1;
      }
      ghost var afterMiddleNotch :=
        if p.middle in c.middle.notches then p.(middle := Increment(p.middle), left := Increment(p.left))
        else p;
      assert Valid() && Settings() == c && RotorPositions() == afterMiddleNotch;
      i := 0;
      while i < |rightRotor.notches|
        invariant 0 <= i <= |rightRotor.notches|
        invariant Valid() && Settings() == c && RotorPositions() == afterMiddleNotch
        invariant p.right !in rightRotor.notches[..i]
      {
        if rightRotor.position == rightRotor.notches[i] {
          middleRotor.IncrementPosition();
          break;
        }
        i := i + 1;
      }
      ghost var afterRightNotch :=
        if p.right in c.right.notches then afterMiddleNotch.(middle := Increment(afterMiddleNotch.middle))
        else afterMiddleNotch;
      assert RotorPositions() == afterRightNotch;
      rightRotor.IncrementPosition();
    }

    /** `use(int)`: one keypress. The rotors step first; the signal then
        takes the path of the new rotor positions, which is the circuit of that state. */
    method Use(input: int) returns (output: int)
      requires Valid() && IsSymbol(input)
      modifies rightRotor, middleRotor, leftRotor
      ensures Valid()
      ensures Settings() == old(Settings())
      ensures RotorPositions() == StepOnce(Settings(), old(RotorPositions()))
      ensures output == Circuit(Settings(), RotorPositions(), input)
    {
      ActuateSteppingMechanism();
      output := Path(Settings(), RotorPositions(), input);
      PathIsCircuit(Settings(), RotorPositions(), input);
    }

    /** `use(char)`: translate the letter, press the key, translate back.
        A character that is not a letter is rejected before any rotor moves. */
    method UseChar(input: char) returns (r: Result<char>)
      requires Valid()
      modifies rightRotor, middleRotor, leftRotor
      ensures Valid()
      ensures Settings() == old(Settings())
      ensures !IsLetter(input) ==>
                r == Err(NoSuchSymbol(input)) && RotorPositions() == old(RotorPositions())
      ensures IsLetter(input) ==>
                RotorPositions() == StepOnce(Settings(), old(RotorPositions())) &&
                r == Ok(ToChar(Circuit(Settings(), RotorPositions(), Code(input))))
    {
      var code := ToInt(input);
      if code.Err? {
        return Err(code.error);
      }
      var output := Use(code.value);
      return Ok(ToChar(output));
    }

    /** `use(String)`: one keypress per character, in order. The first
        character that is not a letter aborts the text with `NoSuchSymbol`;
        the keypresses before it have already moved the rotors. */
    method UseString(input: string) returns (r: Result<string>)
      requires Valid()
      modifies rightRotor, middleRotor, leftRotor
      ensures Valid()
      ensures Settings() == old(Settings())
      ensures RotorPositions() == Advance(Settings(), old(RotorPositions()), FirstInvalid(input))
      ensures FirstInvalid(input) < |input| ==> r == Err(NoSuchSymbol(input[FirstInvalid(input)]))
      ensures FirstInvalid(input) == |input| ==>
                r == Ok(Letters(Encipher(Settings(), old(RotorPositions()), Codes(input))))
    {
      ghost var c := Settings();
      ghost var p := RotorPositions();
      var s := "";
      var i := 0;
      while i < |input|
        invariant 0 <= i <= |input|
        invariant Valid() && Settings() == c
        invariant RotorPositions() == Advance(c, p, i)
        invariant AllValid(input[..i])
        invariant s == Letters(Encipher(c, p, Codes(input[..i])))
      {
        AdvanceLast(c, p, i);
        var output := UseChar(input[i]);
        if output.Err? {
          FirstInvalidAt(input, i);
          return Err(output.error);
        }
        TextSnoc(c, p, input, i);
        s := s + [output.value];
        i := i + 1;
      }
      FirstInvalidAt(input, i);
      assert input[..i] == input;
      return Ok(s);
    }

    /** `setRightRotor`: installs another rotor on the right; nothing else changes. */
    method SetRightRotor(rotor: Rotor)
      requires Valid() && rotor.Valid()
      requires rotor != middleRotor && rotor != leftRotor && rotor != greekRotor
      modifies this
      ensures Valid() && rightRotor == rotor
      ensures middleRotor == old(middleRotor) && leftRotor == old(leftRotor) && greekRotor == old(greekRotor)
      ensures plugboard == old(plugboard) && thinReflector == old(thinReflector)
      ensures Settings() == old(Settings()).(right := SettingOf(rotor))
      ensures RotorPositions() == old(RotorPositions()).(right := rotor.position)
    {
      rightRotor := rotor;
    }

    /** `setMiddleRotor`: installs another rotor in the middle; nothing else changes. */
    method SetMiddleRotor(rotor: Rotor)
      requires Valid() && rotor.Valid()
      requires rotor != rightRotor && rotor != leftRotor && rotor != greekRotor
      modifies this
      ensures Valid() && middleRotor == rotor
      ensures rightRotor == old(rightRotor) && leftRotor == old(leftRotor) && greekRotor == old(greekRotor)
      ensures plugboard == old(plugboard) && thinReflector == old(thinReflector)
      ensures Settings() == old(Settings()).(middle := SettingOf(rotor))
      ensures RotorPositions() == old(RotorPositions()).(middle := rotor.position)
    {
      middleRotor := rotor;
    }

    /** `setLeftRotor`: installs another rotor on the left; nothing else changes. */
    method SetLeftRotor(rotor: Rotor)
      requires Valid() && rotor.Valid()
      requires rotor != rightRotor && rotor != middleRotor && rotor != greekRotor
      modifies this
      ensures Valid() && leftRotor == rotor
      ensures rightRotor == old(rightRotor) && middleRotor == old(middleRotor) && greekRotor == old(greekRotor)
      ensures plugboard == old(plugboard) && thinReflector == old(thinReflector)
      ensures Settings() == old(Settings()).(left := SettingOf(rotor))
      ensures RotorPositions() == old(RotorPositions()).(left := rotor.position)
    {
      leftRotor := rotor;
    }

    /** `setGreekRotor`: installs another greek rotor; the stepping rotors,
        their positions, the plugboard and the reflector stay as they were. */
    method SetGreekRotor(rotor: Rotor)
      requires Valid() && rotor.Valid()
      requires rotor != rightRotor && rotor != middleRotor && rotor != leftRotor
      modifies this
      ensures Valid() && greekRotor == rotor
      ensures rightRotor == old(rightRotor) && middleRotor == old(middleRotor) && leftRotor == old(leftRotor)
      ensures plugboard == old(plugboard) && thinReflector == old(thinReflector)
      ensures Settings() == old(Settings()).(greek := SettingOf(rotor), greekPosition := rotor.position)
      ensures RotorPositions() == old(RotorPositions())
    {
      greekRotor := rotor;
    }

    /** `setThinReflector`: installs another thin reflector; every rotor and
        the plugboard stay as they were. */
    method SetThinReflector(thinReflector: Reflector)
      requires Valid() && thinReflector.Valid()
      modifies this
      ensures Valid() && this.thinReflector == thinReflector
      ensures rightRotor == old(rightRotor) && middleRotor == old(middleRotor) && leftRotor == old(leftRotor)
      ensures greekRotor == old(greekRotor) && plugboard == old(plugboard)
      ensures Settings() == old(Settings()).(reflector := thinReflector)
      ensures RotorPositions() == old(RotorPositions())
    {
      this.thinReflector := thinReflector;
    }
  }

  /** One more letter of the text: the translation so far, followed by the
      letter that the next keypress writes. */
  lemma TextSnoc(c: Config, p: Positions, input: string, i: int)
    requires c.Valid() && p.Valid() && 0 <= i < |input|
    requires AllValid(input[..i]) && IsLetter(input[i])
    ensures AllValid(input[..i + 1])
    ensures Letters(Encipher(c, p, Codes(input[..i + 1]))) ==
            Letters(Encipher(c, p, Codes(input[..i]))) + [ToChar(Circuit(c, Advance(c, p, i + 1), Code(input[i])))]
  {
    assert input[..i + 1] == input[..i] + [input[i]];
    CodesSnoc(input[..i], input[i]);
    EncipherSnoc(c, p, Codes(input[..i]), Code(input[i]));
    LettersSnoc(Encipher(c, p, Codes(input[..i])), Circuit(c, Advance(c, p, i + 1), Code(input[i])));
  }

  /** Letter `j` of an enciphered text is code `j` taken through the
      circuit after `j + 1` keypresses. */
  lemma EncipheredLetterAt(c: Config, p: Positions, input: string, j: int)
    requires c.Valid() && p.Valid() && AllValid(input) && 0 <= j < |input|
    ensures Letters(Encipher(c, p, Codes(input)))[j] == ToChar(Circuit(c, Advance(c, p, j + 1), Code(input[j])))
  {
    EncipherAt(c, p, Codes(input), j);
  }
}
