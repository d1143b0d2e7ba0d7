/** The alphabet: a bidirectional mapping between the machine's symbols and
    the dense indices 0 .. size-1 (Alphabet.java). */
module Alphabets {
  import opened Outcomes

  /** No symbol occurs twice (the documented, but unchecked, demand on the
      construction string). */
  ghost predicate NoDup(s: seq<char>)
  {
    forall i, j :: 0 <= i < j < |s| ==> s[i] != s[j]
  }

  /** The index `toInt` answers: the LAST position holding `ch`, because the
      search loop keeps overwriting its candidate and never stops early; a
      reported error when `ch` does not occur. */
  function LastIndex(chars: seq<char>, ch: char): (r: Result<nat>)
    ensures r.Ok? <==> ch in chars
    ensures r.Ok? ==> r.value < |chars| && chars[r.value] == ch
    ensures r.Ok? ==> forall j :: r.value < j < |chars| ==> chars[j] != ch
    ensures r.Err? ==> r.fault == Reported
  {
    if chars == [] then Err(Reported)
    else if chars[|chars| - 1] == ch then Ok(|chars| - 1)
    else LastIndex(chars[..|chars| - 1], ch)
  }

  const Uppercase: seq<char> := "ABCDEFGHIJKLMNOPQRSTUVWXYZ"

  class Alphabet {
    /** The construction string, kept as given. */
    const chars: seq<char>
    /** The same symbols copied into an array, which the lookups use. */
    const charList: array<char>

    ghost predicate Valid()
      reads charList
    {
      charList[..] == chars
    }

    constructor (s: seq<char>)
      ensures chars == s && Valid() && fresh(charList)
    {
      chars := s;
      var list := new char[|s|];
      var i := 0;
      while i < |s|
        invariant 0 <= i <= |s|
        invariant list[..i] == s[..i]
      {
        list[i] := s[i];
        i := i + 1;
      }
      charList := list;
    }

    /** The number of symbols given at construction. */
    function Size(): nat
    {
      |chars|
    }

    predicate Contains(ch: char)
    {
      ch in chars
    }

    /** Symbol number `index`; a reported error outside [0, Size()). */
    function ToChar(index: int): (r: Result<char>)
      reads charList
      requires Valid()
      ensures r.Ok? <==> 0 <= index < Size()
      ensures r.Ok? ==> r.value == chars[index]
      ensures r.Err? ==> r.fault == Reported
    {
      if index < 0 || index >= charList.Length then Err(Reported)
      else Ok(charList[index])
    }

    /** The index of `ch`: fails exactly when `ch` is not contained, and
        otherwise names the last position holding it. */
    method ToInt(ch: char) returns (r: Result<nat>)
      requires Valid()
      ensures r == LastIndex(chars, ch)
      ensures r.Err? <==> !Contains(ch)
    {
      var inside := false;
      var index := 0;
      var i := 0;
      while i < charList.Length
        invariant 0 <= i <= charList.Length
        invariant inside <==> ch in chars[..i]
        invariant inside ==> index < i && chars[index] == ch
        invariant inside ==> forall j :: index < j < i ==> chars[j] != ch
      {
        if charList[i] == ch {
          inside := true;
          index := i;
        }
        i := i + 1;
      }
      assert chars[..i] == chars;
      if !inside {
        return Err(Reported);
      }
      LastIndexIsLast(chars, ch, index);
      return Ok(index);
    }
  }

  /** The default alphabet "A".."Z". */
  method DefaultAlphabet() returns (a: Alphabet)
    ensures fresh(a.charList) && a.Valid()
    ensures a.chars == Uppercase && a.Size() == 26
    ensures forall k :: 0 <= k < 26 ==> a.chars[k] as int == 'A' as int + k
  {
    a := new Alphabet(Uppercase);
  }

  /** The last position holding `ch` is what `LastIndex` names. */
  lemma LastIndexIsLast(chars: seq<char>, ch: char, k: nat)
    requires k < |chars| && chars[k] == ch
    requires forall j :: k < j < |chars| ==> chars[j] != ch
    ensures LastIndex(chars, ch) == Ok(k)
  {
  }

  /** Round trip from the index side: with no duplicate symbol,
      toInt(toChar(i)) == i. */
  lemma IndexRoundTrip(a: Alphabet, i: int)
    requires a.Valid() && NoDup(a.chars) && 0 <= i < a.Size()
    ensures a.ToChar(i).Ok?
    ensures LastIndex(a.chars, a.ToChar(i).value) == Ok(i)
  {
    LastIndexIsLast(a.chars, a.chars[i], i);
  }

  /** Round trip from the symbol side: toChar(toInt(ch)) == ch, for every
      contained symbol (no distinctness needed). */
  lemma SymbolRoundTrip(a: Alphabet, ch: char)
    requires a.Valid() && a.Contains(ch)
    ensures LastIndex(a.chars, ch).Ok?
    ensures a.ToChar(LastIndex(a.chars, ch).value) == Ok(ch)
  {
  }

  /** With a duplicated symbol, toInt answers the later position. */
  lemma DuplicateAnswersLast()
    ensures LastIndex("ABA", 'A') == Ok(2)
  {
    LastIndexIsLast("ABA", 'A', 2);
  }
}
