/** The symbol codec of the machine: the 26 letters of the original
    alphabet and their codes 0..25. Input is accepted in upper or lower
    case; output is always upper case. */
module Symbols {

  /** The exception raised for a character that is not a letter A-Z or a-z. */
  datatype NoSuchSymbol = NoSuchSymbol(symbol: char)

  /** A value, or the exception that an operation throws instead. */
  datatype Result<T> = Ok(value: T) | Err(error: NoSuchSymbol)

  /** The table `ORIGINAL`: 'A', 'B', ..., 'Z'. */
  function Original(): (table: seq<char>)
  {
    seq(26, i => if 0 <= i < 26 then ('A' as int + i) as char else 'A')
  }

  /** The table `ORIGINAL_LOWER_CASE`: 'a', 'b', ..., 'z'. */
  function OriginalLowerCase(): (table: seq<char>)
  {
    seq(26, i => if 0 <= i < 26 then ('a' as int + i) as char else 'a')
  }

  predicate IsUpper(c: char) { 'A' <= c <= 'Z' }

  predicate IsLower(c: char) { 'a' <= c <= 'z' }

  /** The characters the machine can translate. */
  predicate IsLetter(c: char) { IsUpper(c) || IsLower(c) }

  /** The place of a letter in the alphabet, whatever its case. */
  function Code(c: char): (code: int)
    requires IsLetter(c)
  {
    if IsUpper(c) then c as int - 'A' as int else c as int - 'a' as int
  }

  /** The upper-case form of an ASCII letter; any other character is left alone. */
  function UpperCase(c: char): (u: char)
  {
    if IsLower(c) then (c as int - 'a' as int + 'A' as int) as char else c
  }

  /** What a binary search needs of its table. */
  ghost predicate StrictlyAscending(a: seq<char>)
  {
    forall i, j :: 0 <= i < j < |a| ==> a[i] < a[j]
  }

  /** Both tables are written out in ascending order, as the searches rely on. */
  lemma AlphabetsAscending()
    ensures |Original()| == 26 && |OriginalLowerCase()| == 26
    ensures StrictlyAscending(Original()) && StrictlyAscending(OriginalLowerCase())
    ensures forall i :: 0 <= i < 26 ==> Original()[i] == ('A' as int + i) as char
    ensures forall i :: 0 <= i < 26 ==> OriginalLowerCase()[i] == ('a' as int + i) as char
  {
  }

  /** A character is in a table exactly when it is a letter of that case. */
  lemma TablesHoldLetters(c: char)
    ensures c in Original() <==> IsUpper(c)
    ensures c in OriginalLowerCase() <==> IsLower(c)
  {
    AlphabetsAscending();
    if IsUpper(c) {
      assert Original()[c as int - 'A' as int] == c;
    }
    if IsLower(c) {
      assert OriginalLowerCase()[c as int - 'a' as int] == c;
    }
  }

  /** The letter at place `i` of either table has code `i`. */
  lemma TableIndex(c: char, i: int)
    requires 0 <= i < 26
    ensures Original()[i] == c ==> IsUpper(c) && Code(c) == i
    ensures OriginalLowerCase()[i] == c ==> IsLower(c) && Code(c) == i
  {
    AlphabetsAscending();
  }

  /** Binary search for `key` in `a[lo..hi]`: the index of `key` if it is
      there, and a negative number otherwise. */
  function SearchBetween(a: seq<char>, key: char, lo: int, hi: int): (r: int)
    requires StrictlyAscending(a)
    requires 0 <= lo <= hi <= |a|
    ensures 0 <= r ==> lo <= r < hi && a[r] == key
    ensures r < 0 ==> forall i :: lo <= i < hi ==> a[i] != key
    decreases hi - lo
  {
    if lo == hi then -(lo + 1)
    else
      var mid := (lo + hi) / 2;
      if a[mid] < key then SearchBetween(a, key, mid + 1, hi)
      else if key < a[mid] then SearchBetween(a, key, lo, mid)
      else mid
  }

  /** `Arrays.binarySearch` as an index lookup in an ascending table. */
  function BinarySearch(a: seq<char>, key: char): (r: int)
    requires StrictlyAscending(a)
    ensures 0 <= r ==> r < |a| && a[r] == key
    ensures r < 0 <==> key !in a
  {
    SearchBetween(a, key, 0, |a|)
  }

  /** `toChar`: the code `number` as the upper-case letter it stands for. */
  function ToChar(number: int): (c: char)
    requires 0 <= number < 26
    ensures IsUpper(c) && Code(c) == number
  {
    Original()[number]
  }

  /** `toInt`: the code of a letter of either case; any other character
      raises `NoSuchSymbol`. The upper-case table is searched first. */
  method ToInt(character: char) returns (r: Result<int>)
    ensures r == if IsLetter(character) then Ok(Code(character)) else Err(NoSuchSymbol(character))
  {
    AlphabetsAscending();
    TablesHoldLetters(character);
    var i := BinarySearch(Original(), character);
    if i >= 0 {
      TableIndex(character, i);
      return Ok(i);
    }
    i := BinarySearch(OriginalLowerCase(), character);
    if i >= 0 {
      TableIndex(character, i);
      return Ok(i);
    }
    return Err(NoSuchSymbol(character));
  }

  /** `isValidChar`: whether the character is in one of the two tables,
      that is, whether `toInt` accepts it. */
  method IsValidChar(character: char) returns (b: bool)
    ensures b <==> IsLetter(character)
  {
    AlphabetsAscending();
    TablesHoldLetters(character);
    var i := BinarySearch(Original(), character);
    if i >= 0 {
      return true;
    }
    i := BinarySearch(OriginalLowerCase(), character);
    if i >= 0 {
      return true;
    }
    return false;
  }

  /** Every character of `s` can be translated. */
  predicate AllValid(s: string)
  {
    forall i :: 0 <= i < |s| ==> IsLetter(s[i])
  }

  /** `isValidString`: scans the string and stops at the first character
      that cannot be translated. */
  method IsValidString(s: string) returns (r: bool)
    ensures r <==> AllValid(s)
  {
    for i := 0 to |s|
      invariant forall j :: 0 <= j < i ==> IsLetter(s[j])
    {
      var valid := IsValidChar(s[i]);
      if !valid {
        return false;
      }
    }
    return true;
  }

  /** The index of the first character of `s` that cannot be translated,
      or `|s|` when there is none. */
  function FirstInvalid(s: string): (k: nat)
    ensures k <= |s|
    ensures forall j :: 0 <= j < k ==> IsLetter(s[j])
    ensures k < |s| ==> !IsLetter(s[k])
  {
    if s == [] || !IsLetter(s[0]) then 0 else 1 + FirstInvalid(s[1..])
  }

  /** A scan that found only letters before `i`, and no letter at `i`,
      stopped at the first character that cannot be translated. */
  lemma FirstInvalidAt(s: string, i: int)
    requires 0 <= i <= |s| && AllValid(s[..i])
    requires i < |s| ==> !IsLetter(s[i])
    ensures FirstInvalid(s) == i
  {
  }

  /** The codes of a translatable string, character by character. */
  function Codes(s: string): (xs: seq<int>)
    requires AllValid(s)
    ensures |xs| == |s|
    ensures forall i :: 0 <= i < |s| ==> 0 <= xs[i] < 26 && xs[i] == Code(s[i])
  {
    if s == [] then [] else [Code(s[0])] + Codes(s[1..])
  }

  /** The letters of a sequence of codes. */
  function Letters(xs: seq<int>): (s: string)
    requires forall i :: 0 <= i < |xs| ==> 0 <= xs[i] < 26
    ensures |s| == |xs|
    ensures forall i :: 0 <= i < |xs| ==> s[i] == ToChar(xs[i])
  {
    if xs == [] then [] else [ToChar(xs[0])] + Letters(xs[1..])
  }

  /** Translating one more character adds its code at the end. */
  lemma CodesSnoc(s: string, c: char)
    requires AllValid(s) && IsLetter(c)
    ensures AllValid(s + [c]) && Codes(s + [c]) == Codes(s) + [Code(c)]
  {
    assert forall i :: 0 <= i < |s| ==> (s + [c])[i] == s[i];
  }

  /** Writing one more code adds its letter at the end. */
  lemma {:induction false} LettersSnoc(xs: seq<int>, x: int)
    requires forall i :: 0 <= i < |xs| ==> 0 <= xs[i] < 26
    requires 0 <= x < 26
    ensures Letters(xs + [x]) == Letters(xs) + [ToChar(x)]
  {
    if xs != [] {
      assert (xs + [x])[1..] == xs[1..] + [x];
      LettersSnoc(xs[1..], x);
    }
  }

  /** Round trip from codes: a code's letter is read back as that code. */
  lemma CodeOfToChar(n: int)
    requires 0 <= n < 26
    ensures IsLetter(ToChar(n)) && Code(ToChar(n)) == n
  {
  }

  /** Round trip from letters: writing the code of a letter gives the
      letter in upper case. */
  lemma ToCharOfCode(c: char)
    requires IsLetter(c)
    ensures ToChar(Code(c)) == UpperCase(c)
  {
    AlphabetsAscending();
  }

  /** Input is case-insensitive: a lower-case letter and its upper-case
      form have one code. */
  lemma CodeCaseInsensitive(c: char)
    requires IsLower(c)
    ensures IsUpper(UpperCase(c)) && Code(c) == Code(UpperCase(c))
  {
  }

  /** Reading the letters of a code sequence gives back the codes. */
  lemma {:induction false} CodesOfLetters(xs: seq<int>)
    requires forall i :: 0 <= i < |xs| ==> 0 <= xs[i] < 26
    ensures AllValid(Letters(xs)) && Codes(Letters(xs)) == xs
  {
    var s := Letters(xs);
    forall i | 0 <= i < |xs| ensures IsLetter(s[i]) && Code(s[i]) == xs[i] {
      CodeOfToChar(xs[i]);
    }
  }
}
