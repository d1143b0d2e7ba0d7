/** Character-level helpers shared by the engine and the driver. */
module Text {

  /** Java's `toUpperCase` restricted to the ASCII letters. */
  function UpperChar(ch: char): char
  {
    if 'a' <= ch <= 'z' then (ch as int - 32) as char else ch
  }

  function Upper(s: seq<char>): (r: seq<char>)
    ensures |r| == |s|
    ensures forall k :: 0 <= k < |s| ==> r[k] == UpperChar(s[k])
  {
    if s == [] then [] else Upper(s[..|s| - 1]) + [UpperChar(s[|s| - 1])]
  }

  /** `s` with every occurrence of `ch` removed (`replaceAll` of a single character). */
  function Without(s: seq<char>, ch: char): (r: seq<char>)
    ensures ch !in r
    ensures |r| <= |s|
  {
    if s == [] then []
    else if s[|s| - 1] == ch then Without(s[..|s| - 1], ch)
    else Without(s[..|s| - 1], ch) + [s[|s| - 1]]
  }

  /** Java's `indexOf(ch)`: the first position holding `ch`, or -1. */
  function IndexOf(s: seq<char>, ch: char): (k: int)
    ensures -1 <= k < |s|
    ensures k == -1 <==> ch !in s
    ensures k >= 0 ==> s[k] == ch && forall j :: 0 <= j < k ==> s[j] != ch
  {
    if s == [] then -1
    else if s[0] == ch then 0
    else var k := IndexOf(s[1..], ch); if k == -1 then -1 else k + 1
  }

  lemma {:induction false} UpperIdempotent(s: seq<char>)
    ensures Upper(Upper(s)) == Upper(s)
  {
    assert forall k :: 0 <= k < |s| ==> UpperChar(UpperChar(s[k])) == UpperChar(s[k]);
  }

  /** Splitting at the first `c` of `s == t + [c] + rest`, when t has none. */
  lemma SplitAt(s: seq<char>, t: seq<char>, c: char, rest: seq<char>)
    requires c !in t && s == t + [c] + rest
    ensures IndexOf(s, c) == |t| && s[..|t|] == t && s[|t| + 1..] == rest && s[|t|..] == [c] + rest
  {
    assert s[|t|] == c;
  }

  /** Removing a symbol that does not occur changes nothing. */
  lemma {:induction false} WithoutAbsent(s: seq<char>, ch: char)
    requires ch !in s
    ensures Without(s, ch) == s
  {
    if s != [] {
      WithoutAbsent(s[..|s| - 1], ch);
    }
  }

  /** Removing a symbol distributes over concatenation. */
  lemma {:induction false} WithoutConcat(s: seq<char>, t: seq<char>, ch: char)
    ensures Without(s + t, ch) == Without(s, ch) + Without(t, ch)
    decreases |t|
  {
    if t != [] {
      assert (s + t)[..|s + t| - 1] == s + t[..|t| - 1];
      WithoutConcat(s, t[..|t| - 1], ch);
    } else {
      assert s + t == s;
    }
  }
}
