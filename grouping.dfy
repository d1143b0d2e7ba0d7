/** Output formatting of the driver (Main.java, `printMessageLine`): the
    converted message is printed without its spaces, in blocks of five
    letters, each full block followed by a space. */
module Grouping {
  import opened Text

  /** The printed form of the space-free text `s`: a space after every
      fifth letter, so a length that is a positive multiple of five ends
      with a space. */
  function Blocks(s: seq<char>): (r: seq<char>)
    ensures |r| == |s| + |s| / 5
    decreases |s|
  {
    if |s| < 5 then s else s[..5] + [' '] + Blocks(s[5..])
  }

  /** `printMessageLine`, returning the line instead of printing it. */
  method GroupInFives(msg: seq<char>) returns (line: seq<char>)
    ensures line == Blocks(Without(msg, ' '))
  {
    line := [];
    var count := 0;
    ghost var letters: seq<char> := [];
    var i := 0;
    while i < |msg|
      invariant 0 <= i <= |msg|
      invariant letters == Without(msg[..i], ' ')
      invariant line == Blocks(letters)
      invariant count == |letters| % 5
    {
      var ch := msg[i];
      assert msg[..i + 1] == msg[..i] + [ch];
      if ch != ' ' {
        BlocksAppend(letters, ch);
        CountStep(|letters|, count);
        letters := letters + [ch];
        line := line + [ch];
        count := count + 1;
      }
      if count == 5 {
        count := 0;
        line := line + [' '];
      }
      i := i + 1;
    }
    assert msg[..i] == msg;
  }

  /** The block counter stays the number of letters modulo five. */
  lemma CountStep(n: nat, count: int)
    requires count == n % 5
    ensures count + 1 == 5 <==> (n + 1) % 5 == 0
    ensures (if count + 1 == 5 then 0 else count + 1) == (n + 1) % 5
  {
  }

  /** One more letter: it is appended, followed by a space when it
      completes a block. */
  lemma {:induction false} BlocksAppend(s: seq<char>, c: char)
    ensures Blocks(s + [c]) == Blocks(s) + [c] + (if (|s| + 1) % 5 == 0 then [' '] else [])
    decreases |s|
  {
    if |s| >= 5 {
      assert (s + [c])[..5] == s[..5];
      assert (s + [c])[5..] == s[5..] + [c];
      BlocksAppend(s[5..], c);
    } else if |s| == 4 {
      assert (s + [c])[..5] == s + [c];
      assert (s + [c])[5..] == [];
    }
  }

  /** Removing the spaces from the printed line gives the letters back, in
      order. */
  lemma {:induction false} BlocksWithoutSpaces(s: seq<char>)
    requires ' ' !in s
    ensures Without(Blocks(s), ' ') == s
    decreases |s|
  {
    if |s| >= 5 {
      BlocksWithoutSpaces(s[5..]);
      WithoutConcat(s[..5] + [' '], Blocks(s[5..]), ' ');
      WithoutConcat(s[..5], [' '], ' ');
      WithoutAbsent(s[..5], ' ');
      assert s[..5] + s[5..] == s;
    } else {
      WithoutAbsent(s, ' ');
    }
  }

  /** The printed line of n letters has n + n/5 symbols, and its spaces are
      exactly at positions 5, 11, 17, ... */
  lemma {:induction false} BlocksLayout(s: seq<char>)
    requires ' ' !in s
    ensures |Blocks(s)| == |s| + |s| / 5
    ensures forall k :: 0 <= k < |Blocks(s)| ==> (Blocks(s)[k] == ' ' <==> k % 6 == 5)
    decreases |s|
  {
    if |s| >= 5 {
      var b := Blocks(s[5..]);
      BlocksLayout(s[5..]);
      assert ' ' !in s[..5];
      forall k | 0 <= k < |Blocks(s)|
        ensures Blocks(s)[k] == ' ' <==> k % 6 == 5
      {
        if k >= 6 {
          assert Blocks(s)[k] == b[k - 6];
          assert (k - 6) % 6 == k % 6;
        } else if k < 5 {
          assert Blocks(s)[k] == s[k];
        }
      }
    }
  }
}
