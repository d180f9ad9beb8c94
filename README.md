# Janigma: the Enigma M4 keypress, modelled in Dafny

The model covers three parts of Janigma's Java simulator of the four-rotor naval Enigma:

- **Stepping mechanism.** What one keypress does to the right, middle and left rotors, including double stepping.
- **Signal path.** The route a symbol takes through the plugboard, the four rotors and the thin reflector, and back.
- **Symbol codec.** The translation between the letters A–Z / a–z and the codes 0–25.

On top of these sit the text level: one letter and a whole string.

The abstract base class `Enigma` and its subclass `EnigmaM4` become one Dafny class, `Machine.EnigmaM4`. In the source they live in two different packages. Likewise, `Enigma.java` imports the codec `Original` from `com.github.fredooo.janigma.core.symbols`, while the codec's source is in `de.fredooo.janigma.symbols`; the model takes the two to be one class, `Symbols`.

## Modules

- `Components` (`components.dfy`) states what the machine relies on in the parts it is built from:
  - `carryOver`, the reduction onto [0, 26);
  - rotor wirings;
  - the reflector;
  - the plugboard;
  - the rotor object, whose position turns in place.
- `Stepping` (`stepping.dfy`) gives the stepping mechanism as a function on the three positions. It compares the code's rule with the rule as usually told for the historical machine.
- `SignalPath` (`signal_path.dfy`) has the following:
  - `Path`: lines 69–99 of `use(int)`, the way the code writes them.
  - `Circuit`: a reference definition. It runs a stack of rotor stages in and out, around the reflector, seen through the plugboard.
  - A proof that `Path` and `Circuit` agree.
  - Proofs of reciprocity, bijectivity and the absence of self-encipherment.
  - `Encipher`, which extends the path to texts of codes.
- `Symbols` (`symbols.dfy`) covers the codec: the two alphabet tables, `toChar`, `toInt`, `isValidChar` and `isValidString`.
- `Machine` (`machine.dfy`) is the mutable machine:
  - the stepping method, with its two loops that break;
  - `use(int)`, `use(char)` and `use(String)`;
  - the setters.

## Stepping follows the code

The code checks the middle rotor's notch and the right rotor's notch independently. The right-rotor check is not an `else`. When both rotors sit on notches, the middle rotor advances twice in one keypress.

The model follows the code:
- `Stepping.Step` and `Machine.EnigmaM4.ActuateSteppingMechanism` move the middle rotor by the number of notch checks that fire.
- `Stepping.HistoricalStep` is the usual description of the mechanism.
- `Stepping.StepAgreesWithHistoricalRule` shows that the two disagree exactly in that double case.

## Model

Every path is relative to the repository root. `Enigma.java` is `src/main/java/com/github/fredooo/janigma/core/machine/Enigma.java`.

| member | source | states |
|---|---|---|
| Components.Carry | src/main/java/de/fredooo/janigma/machine/EnigmaM4.java:71-97 | `carryOver` sends every integer, negative intermediates included, onto a contact in [0, 26) |
| Components.CarryAbsorbs | src/main/java/de/fredooo/janigma/machine/EnigmaM4.java:73-74 | reducing an intermediate value early does not change the contact the next reduction gives |
| Components.Wiring.Inwards | src/main/java/de/fredooo/janigma/machine/EnigmaM4.java:72 | the inward contact is a symbol, and the outward map sends it back to the input |
| Components.Wiring.Outwards | src/main/java/de/fredooo/janigma/machine/EnigmaM4.java:87 | the outward contact is a symbol, and the inward map sends it back to the input |
| Components.Reflector.OutputOf | src/main/java/de/fredooo/janigma/machine/EnigmaM4.java:84 | the reflected contact is a symbol whose own reflection is the input |
| Components.Plugboard.SwappedWith | src/main/java/de/fredooo/janigma/machine/EnigmaM4.java:69 | a plugged symbol becomes its partner, whose partner is the symbol; an unplugged one passes unchanged |
| Components.SwappedTwice | src/main/java/de/fredooo/janigma/machine/EnigmaM4.java:99 | swapping at the plugboard twice gives back the symbol |
| Components.Rotor.IncrementPosition | src/main/java/com/github/fredooo/janigma/core/machine/Enigma.java:126 | the position advances by one contact, from Z back to A; the offset stays |
| Stepping.Step | src/main/java/com/github/fredooo/janigma/core/machine/Enigma.java:105-128 | the right rotor advances once; the left rotor advances once exactly when the middle rotor is on one of its notches; the middle rotor advances once for each of the two independent notch checks that fires; a notch listed twice counts once |
| Stepping.StepAgreesWithHistoricalRule | src/main/java/com/github/fredooo/janigma/core/machine/Enigma.java:106-124 | the code's stepping equals the else-if rule exactly when the middle and right rotors are not both on notches; in that case the middle rotor moves two contacts |
| Stepping.DoubleSteppingAnomaly | src/main/java/com/github/fredooo/janigma/core/machine/Enigma.java:106-124 | a right-rotor notch brings the middle rotor onto its notch; the next keypress moves it again, together with the left rotor |
| SignalPath.RotorStageInverse | src/main/java/de/fredooo/janigma/machine/EnigmaM4.java:71-97 | a rotor crossed outwards undoes the same rotor crossed inwards at the same shift, and the reverse |
| SignalPath.Inward | src/main/java/de/fredooo/janigma/machine/EnigmaM4.java:71-82 | the way in through a stack of rotor stages yields a symbol |
| SignalPath.Outward | src/main/java/de/fredooo/janigma/machine/EnigmaM4.java:86-97 | the way out through a stack of rotor stages yields a symbol |
| SignalPath.OutwardInvertsInward | src/main/java/de/fredooo/janigma/machine/EnigmaM4.java:71-97 | for any stack of rotors, the way out is the inverse of the way in, in both orders |
| SignalPath.Circuit | src/main/java/de/fredooo/janigma/machine/EnigmaM4.java:69-99 | the reference definition of one keypress's substitution; maps [0, 26) into [0, 26) |
| SignalPath.Path | src/main/java/de/fredooo/janigma/machine/EnigmaM4.java:69-99 | the code's signal path yields a symbol |
| SignalPath.PathIn | src/main/java/de/fredooo/janigma/machine/EnigmaM4.java:71-82 | the code's way in yields a symbol |
| SignalPath.PathOut | src/main/java/de/fredooo/janigma/machine/EnigmaM4.java:86-97 | the code's way out yields a symbol |
| SignalPath.HopIn | src/main/java/de/fredooo/janigma/machine/EnigmaM4.java:73-74 | one carry over the difference of two neighbours' `position - offset` equals leaving the first rotor's frame, then entering the next |
| SignalPath.HopOut | src/main/java/de/fredooo/janigma/machine/EnigmaM4.java:94-95 | the same junction on the way out, with the negated adjustment |
| SignalPath.FusedInward | src/main/java/de/fredooo/janigma/machine/EnigmaM4.java:71-82 | four inward rotors with fused junctions are the four rotor stages in turn |
| SignalPath.FusedOutward | src/main/java/de/fredooo/janigma/machine/EnigmaM4.java:86-97 | four outward rotors with fused junctions are the four rotor stages in turn |
| SignalPath.InwardFour | src/main/java/de/fredooo/janigma/machine/EnigmaM4.java:71-82 | the way in through four stages is the four stages applied in order |
| SignalPath.OutwardFour | src/main/java/de/fredooo/janigma/machine/EnigmaM4.java:86-97 | the way out through four stages is the four stages applied in reverse order |
| SignalPath.PathInRotorByRotor | src/main/java/de/fredooo/janigma/machine/EnigmaM4.java:71-82 | the code's way in crosses the right, middle, left and greek rotor stages in turn |
| SignalPath.PathOutRotorByRotor | src/main/java/de/fredooo/janigma/machine/EnigmaM4.java:86-97 | the code's way out crosses the greek, left, middle and right rotor stages in turn |
| SignalPath.PathInIsInward | src/main/java/de/fredooo/janigma/machine/EnigmaM4.java:71-82 | the code's way in is the way in through the machine's stack of rotors, each shifted by its own `position - offset`, so each adjustment between two rotors is the difference of their shifts |
| SignalPath.PathOutIsOutward | src/main/java/de/fredooo/janigma/machine/EnigmaM4.java:86-97 | the code's way out is the way out through the same stack with the same shifts, so its adjustments are the inward ones negated, in reverse order |
| SignalPath.PathIsCircuit | src/main/java/de/fredooo/janigma/machine/EnigmaM4.java:69-99 | the code's signal path is the reflector conjugated by the rotors and the plugboard |
| SignalPath.CircuitReciprocal | src/main/java/de/fredooo/janigma/machine/EnigmaM4.java:69-99 | reciprocity: at one rotor state, enciphering the output gives back the input |
| SignalPath.CircuitInjective | src/main/java/de/fredooo/janigma/machine/EnigmaM4.java:69-99 | at one rotor state, two symbols with one output are equal |
| SignalPath.CircuitSurjective | src/main/java/de/fredooo/janigma/machine/EnigmaM4.java:69-99 | at one rotor state, every symbol is the output of some symbol |
| SignalPath.CircuitOneToOne | src/main/java/de/fredooo/janigma/machine/EnigmaM4.java:69-99 | at one rotor state, the substitution is one-to-one on [0, 26) |
| SignalPath.NoSelfEncipherment | src/main/java/de/fredooo/janigma/machine/EnigmaM4.java:71-97 | with a reflector that has no fixed point, no symbol is enciphered as itself |
| SignalPath.Advance | src/main/java/com/github/fredooo/janigma/core/machine/Enigma.java:138-139 | after `n` keypresses the right rotor has advanced `n` contacts and all positions are symbols |
| SignalPath.AdvanceLast | src/main/java/com/github/fredooo/janigma/core/machine/Enigma.java:138-139 | keypress `n + 1` steps the state reached after `n` keypresses |
| SignalPath.Encipher | src/main/java/com/github/fredooo/janigma/core/machine/Enigma.java:136-142 | a text of symbols is enciphered into a text of symbols of the same length |
| SignalPath.EncipherAt | src/main/java/com/github/fredooo/janigma/core/machine/Enigma.java:136-142 | code `i` of the text goes through the substitution of the state after `i + 1` keypresses |
| SignalPath.EncipherSnoc | src/main/java/com/github/fredooo/janigma/core/machine/Enigma.java:138-139 | one more symbol at the end of the text comes out after one more keypress |
| SignalPath.EncipherTwice | src/main/java/com/github/fredooo/janigma/core/machine/Enigma.java:136-142 | enciphering a text twice from the same starting positions gives the text back |
| Symbols.AlphabetsAscending | src/main/java/de/fredooo/janigma/symbols/Original.java:14-20 | both tables hold 26 letters in strictly ascending order, A..Z and a..z |
| Symbols.TablesHoldLetters | src/main/java/de/fredooo/janigma/symbols/Original.java:14-20 | a character is in the upper-case table exactly when it is A..Z, and in the lower-case table exactly when it is a..z |
| Symbols.TableIndex | src/main/java/de/fredooo/janigma/symbols/Original.java:14-20 | the letter at place `i` of either table has code `i` |
| Symbols.SearchBetween | src/main/java/de/fredooo/janigma/symbols/Original.java:38 | binary search in a range gives an index that holds the key, or a negative number when the range lacks it |
| Symbols.BinarySearch | src/main/java/de/fredooo/janigma/symbols/Original.java:38 | a non-negative result is an index holding the key; the result is negative exactly when the key is absent |
| Symbols.ToChar | src/main/java/de/fredooo/janigma/symbols/Original.java:27-29 | `toChar(n)` is the upper-case letter with code `n` |
| Symbols.ToInt | src/main/java/de/fredooo/janigma/symbols/Original.java:37-43 | `toInt` gives the code of a letter of either case, and raises `NoSuchSymbol` exactly for every other character |
| Symbols.IsValidChar | src/main/java/de/fredooo/janigma/symbols/Original.java:50-56 | `isValidChar` holds exactly for the characters that `toInt` accepts |
| Symbols.IsValidString | src/main/java/de/fredooo/janigma/symbols/Original.java:63-70 | `isValidString` holds exactly when every character is valid, so the empty string is valid |
| Symbols.FirstInvalid | src/main/java/com/github/fredooo/janigma/core/machine/Enigma.java:138-139 | the index of the first character `use(char)` rejects, or the length when none is rejected |
| Symbols.FirstInvalidAt | src/main/java/com/github/fredooo/janigma/core/machine/Enigma.java:138-139 | a scan that accepted everything before `i` and rejects `i` stopped at the first invalid character |
| Symbols.Codes | src/main/java/com/github/fredooo/janigma/core/machine/Enigma.java:139 | a valid text has one code per character, namely that character's code |
| Symbols.Letters | src/main/java/com/github/fredooo/janigma/core/machine/Enigma.java:139 | a text of codes has one upper-case letter per code |
| Symbols.CodesSnoc | src/main/java/com/github/fredooo/janigma/core/machine/Enigma.java:139 | one more valid character adds its code at the end |
| Symbols.LettersSnoc | src/main/java/com/github/fredooo/janigma/core/machine/Enigma.java:139 | one more code adds its letter at the end |
| Symbols.CodeOfToChar | src/main/java/de/fredooo/janigma/symbols/Original.java:27-43 | round trip from codes: the letter of code `n` is read back as `n` |
| Symbols.ToCharOfCode | src/main/java/de/fredooo/janigma/symbols/Original.java:27-43 | round trip from letters: the letter of a letter's code is that letter in upper case |
| Symbols.CodeCaseInsensitive | src/main/java/de/fredooo/janigma/symbols/Original.java:37-41 | a lower-case letter has the same code as its upper-case form |
| Symbols.CodesOfLetters | src/main/java/de/fredooo/janigma/symbols/Original.java:27-43 | the letters written for a text of codes read back as those codes |
| Machine.EnigmaM4.ActuateSteppingMechanism | src/main/java/com/github/fredooo/janigma/core/machine/Enigma.java:105-128 | the two notch loops with `break` and the final increment move the three positions as `Stepping.Step` says; offsets, notches, wirings, the greek rotor, the plugboard and the reflector stay as they were |
| Machine.EnigmaM4.Use | src/main/java/de/fredooo/janigma/machine/EnigmaM4.java:65-102 | steps exactly once and then enciphers by the substitution of the new positions; the greek rotor's position stays |
| Machine.EnigmaM4.UseChar | src/main/java/com/github/fredooo/janigma/core/machine/Enigma.java:151-153 | a letter of either case goes out as the upper-case letter of the substitution of its code, after one step; any other character raises `NoSuchSymbol` before any rotor moves |
| Machine.EnigmaM4.UseString | src/main/java/com/github/fredooo/janigma/core/machine/Enigma.java:136-142 | a valid text comes out letter by letter as `Encipher` says, and the rotors have stepped once per letter; at the first invalid character `NoSuchSymbol` is raised, after the keypresses before it have stepped the rotors |
| Machine.EnigmaM4.SetRightRotor | src/main/java/com/github/fredooo/janigma/core/machine/Enigma.java:58-60 | only the right rotor is replaced; the other slots keep the same objects |
| Machine.EnigmaM4.SetMiddleRotor | src/main/java/com/github/fredooo/janigma/core/machine/Enigma.java:74-76 | only the middle rotor is replaced; the other slots keep the same objects |
| Machine.EnigmaM4.SetLeftRotor | src/main/java/com/github/fredooo/janigma/core/machine/Enigma.java:90-92 | only the left rotor is replaced; the other slots keep the same objects |
| Machine.EnigmaM4.SetGreekRotor | src/main/java/de/fredooo/janigma/machine/EnigmaM4.java:44-46 | only the greek rotor and its position change; the stepping rotors, the plugboard and the reflector stay |
| Machine.EnigmaM4.SetThinReflector | src/main/java/de/fredooo/janigma/machine/EnigmaM4.java:60-62 | only the reflector changes; every rotor, with its position, and the plugboard stay |
| Machine.TextSnoc | src/main/java/com/github/fredooo/janigma/core/machine/Enigma.java:138-139 | the text so far, followed by the letter of the next keypress, is the translation of the text one character longer |
| Machine.EncipheredLetterAt | src/main/java/com/github/fredooo/janigma/core/machine/Enigma.java:136-142 | letter `j` of a translated text is the upper-case letter of code `j`'s substitution after `j + 1` keypresses |

## Left out

- JSON serialisation (the Jackson annotations and type tags), `equals` and `toString`: these are plumbing around the machine, not its behaviour.
- The getters: they are plain reads of the fields.
- The default constructors and the rotor and reflector catalogue they use: the wiring tables are not part of this model. `Machine.EnigmaM4.constructor` instead assembles a machine from any valid parts.
- `Rotor`, `Reflector`, `Plugboard`, `carryOver` and `NoSuchSymbolException` are not part of this model. Each is given by the behaviour the machine relies on:
  - a wiring is two mutually inverse maps on [0, 26);
  - the reflector is an involution;
  - the plugboard is a map of symmetric pairs;
  - `carryOver` is the Euclidean `% 26`;
  - the exception carries the rejected character.
- Aliasing: the same `Rotor` object in two slots is excluded. The constructor and the setters require four different rotors.
- The three-rotor machine `EnigmaM3` is not part of this model.
- Java `String`s are sequences of UTF-16 code units, while a Dafny `string` holds Unicode scalar values. For a text with a character outside the Basic Multilingual Plane, `use(String)` stops at the same place and leaves the rotors in the same state, but Java's `NoSuchSymbolException` carries the high surrogate, while the model's `NoSuchSymbol` carries the whole character. Lone surrogates cannot occur in the model.
- The cost of Java `String` concatenation in `use(String)`: the model appends to a sequence.
- Machine.EnigmaM4.Use: requires an input in [0, 26). Java's `use(int)` takes any `int`, and what the unseen plugboard does with other values is not known.
- Symbols.ToChar: requires a code in [0, 26). For other values Java throws `ArrayIndexOutOfBoundsException`, and every caller passes a code.
- Symbols.BinarySearch: for an absent key, it states only that the result is negative. The JDK's `-(insertion point) - 1` is not stated, because the code only tests the sign.
- Symbols.ToInt and Symbols.IsValidChar: though free of side effects, they are methods, since each runs two searches in sequence with a reassigned local. Their contracts state their results as functions of the character.
