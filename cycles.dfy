/** The cycle-notation semantics of a permutation (Permutation.java), as
    functions of the stored cycle text.  The class in permutation.dfy
    computes these step by step. */
module Cycles {
  import opened Outcomes
  import opened Text
  import opened Modular
  import opened Alphabets

  // ---------------------------------------------------------------------
  // Splitting the cycle text (`helper`)
  // ---------------------------------------------------------------------

  /** Cuts `s` at every occurrence of ")(" scanning left to right, keeping
      every piece, empty ones included. */
  function SplitAtSeams(s: seq<char>): (r: seq<seq<char>>)
    ensures |r| >= 1
  {
    if |s| < 2 then [s]
    else if s[0] == ')' && s[1] == '(' then [[]] + SplitAtSeams(s[2..])
    else var rest := SplitAtSeams(s[1..]); [[s[0]] + rest[0]] + rest[1..]
  }

  /** The pieces up to the last non-empty one. */
  function DropTrailingEmpty(pieces: seq<seq<char>>): (r: seq<seq<char>>)
    ensures |r| <= |pieces| && r == pieces[..|r|]
    ensures r != [] ==> r[|r| - 1] != []
    ensures forall k :: |r| <= k < |pieces| ==> pieces[k] == []
  {
    if pieces == [] then []
    else if pieces[|pieces| - 1] == [] then DropTrailingEmpty(pieces[..|pieces| - 1])
    else pieces
  }

  /** Java's `String.split`: the input itself when the separator never
      occurs, otherwise the pieces without the trailing empty ones. */
  function JavaSplit(s: seq<char>): seq<seq<char>>
  {
    var r := SplitAtSeams(s);
    if |r| == 1 then r else DropTrailingEmpty(r)
  }

  /** `helper`: with a space in the text, squeeze the spaces out, split at
      ")(" and trim the pieces; without a space, one piece holding the text
      with only the ')' removed. */
  function Helper(text: seq<char>): Result<seq<seq<char>>>
  {
    if ' ' in text then Trim(JavaSplit(Without(text, ' ')))
    else Ok([Without(text, ')')])
  }

  /** Cuts the first character of the first piece and then the last
      character of the last piece (the same piece when there is one).  A
      missing first piece, or a `substring` call on an empty piece, throws:
      a crash. */
  function Trim(pieces: seq<seq<char>>): Result<seq<seq<char>>>
  {
    if |pieces| == 0 || |pieces[0]| == 0 then Err(Crash)
    else
      var trimmed := pieces[0 := pieces[0][1..]];
      var last := trimmed[|trimmed| - 1];
      if |last| == 0 then Err(Crash)
      else Ok(trimmed[|trimmed| - 1 := last[..|last| - 1]])
  }

  /** The cycles `cs` written without spaces: "(c0)(c1)...(cm)". */
  function Compact(cs: seq<seq<char>>): seq<char>
    requires |cs| >= 1
  {
    "(" + Joined(cs) + ")"
  }

  function Joined(cs: seq<seq<char>>): seq<char>
    requires |cs| >= 1
  {
    if |cs| == 1 then cs[0] else cs[0] + ")(" + Joined(cs[1..])
  }

  // ---------------------------------------------------------------------
  // Cycle lookup (`permute(char)`, `invert(char)`)
  // ---------------------------------------------------------------------

  /** The symbol after `p` in `cyc`, the last wrapping to the first; `p` is
      located by its first occurrence (`indexOf`). */
  function Succ(cyc: seq<char>, p: char): (r: char)
    requires p in cyc
    ensures r in cyc
  {
    var k := IndexOf(cyc, p);
    if k != |cyc| - 1 then cyc[k + 1] else cyc[0]
  }

  /** The symbol before `p` in `cyc`, the first wrapping to the last. */
  function Pred(cyc: seq<char>, p: char): (r: char)
    requires p in cyc
    ensures r in cyc
  {
    var k := IndexOf(cyc, p);
    if k != 0 then cyc[k - 1] else cyc[|cyc| - 1]
  }

  /** Forward lookup over the split cycles: a symbol in no cycle maps to
      itself; otherwise the LAST cycle holding it decides, because the scan
      keeps overwriting its answer. */
  function PermuteIn(cs: seq<seq<char>>, p: char): char
  {
    if cs == [] then p
    else if p in cs[|cs| - 1] then Succ(cs[|cs| - 1], p)
    else PermuteIn(cs[..|cs| - 1], p)
  }

  /** Inverse lookup: the same scan with the predecessor. */
  function InvertIn(cs: seq<seq<char>>, p: char): char
  {
    if cs == [] then p
    else if p in cs[|cs| - 1] then Pred(cs[|cs| - 1], p)
    else InvertIn(cs[..|cs| - 1], p)
  }

  /** What the scan finds: a symbol in no cycle is left alone; otherwise
      the successor within the last cycle that holds it. */
  lemma {:induction false} PermuteInFinds(cs: seq<seq<char>>, p: char)
    ensures (forall k :: 0 <= k < |cs| ==> p !in cs[k]) ==> PermuteIn(cs, p) == p
    ensures forall k :: 0 <= k < |cs| && p in cs[k] && (forall j :: k < j < |cs| ==> p !in cs[j]) ==>
              PermuteIn(cs, p) == Succ(cs[k], p)
  {
    if cs != [] && p !in cs[|cs| - 1] {
      PermuteInFinds(cs[..|cs| - 1], p);
    }
  }

  /** The same for the inverse scan, with the predecessor. */
  lemma {:induction false} InvertInFinds(cs: seq<seq<char>>, p: char)
    ensures (forall k :: 0 <= k < |cs| ==> p !in cs[k]) ==> InvertIn(cs, p) == p
    ensures forall k :: 0 <= k < |cs| && p in cs[k] && (forall j :: k < j < |cs| ==> p !in cs[j]) ==>
              InvertIn(cs, p) == Pred(cs[k], p)
  {
    if cs != [] && p !in cs[|cs| - 1] {
      InvertInFinds(cs[..|cs| - 1], p);
    }
  }

  /** `permute(char)`: the empty text is the identity and is not split. */
  function PermuteText(text: seq<char>, p: char): Result<char>
  {
    if text == [] then Ok(p)
    else
      var cs :- Helper(text);
      Ok(PermuteIn(cs, p))
  }

  function InvertText(text: seq<char>, c: char): Result<char>
  {
    if text == [] then Ok(c)
    else
      var cs :- Helper(text);
      Ok(InvertIn(cs, c))
  }

  /** `derangement()`: no split cycle of length one.  The text is split even
      when empty. */
  function DerangementText(text: seq<char>): Result<bool>
  {
    match Helper(text)
    case Err(e) => Err(e)
    case Ok(cs) => Ok(NoSingleton(cs))
  }

  predicate NoSingleton(cs: seq<seq<char>>)
  {
    forall k :: 0 <= k < |cs| ==> |cs[k]| != 1
  }

  // ---------------------------------------------------------------------
  // Index level (`permute(int)`, `invert(int)`)
  // ---------------------------------------------------------------------

  /** Wrap the index (a crash on an empty alphabet: division by zero), take
      its symbol, look it up, and map the answer back with `toInt`, which
      reports an error for a symbol outside the alphabet. */
  function PermIdx(A: seq<char>, text: seq<char>, p: int): (r: Result<int>)
    ensures |A| == 0 ==> r == Err(Crash)
    ensures r.Ok? ==> 0 <= r.value < |A|
  {
    if |A| == 0 then Err(Crash)
    else
      var o :- PermuteText(text, A[Wrap(p, |A|)]);
      var i :- LastIndex(A, o);
      Ok(i)
  }

  function InvIdx(A: seq<char>, text: seq<char>, c: int): (r: Result<int>)
    ensures |A| == 0 ==> r == Err(Crash)
    ensures r.Ok? ==> 0 <= r.value < |A|
  {
    if |A| == 0 then Err(Crash)
    else
      var o :- InvertText(text, A[Wrap(c, |A|)]);
      var i :- LastIndex(A, o);
      Ok(i)
  }

  // ---------------------------------------------------------------------
  // Well-formed cycles
  // ---------------------------------------------------------------------

  /** Every symbol lies in at most one cycle. */
  ghost predicate Disjoint(cs: seq<seq<char>>)
  {
    forall i, j, ch :: 0 <= i < j < |cs| && ch in cs[i] ==> ch !in cs[j]
  }

  /** Each cycle repeats no symbol and uses only symbols of `A`. */
  ghost predicate CyclesOver(A: seq<char>, cs: seq<seq<char>>)
  {
    forall k :: 0 <= k < |cs| ==> NoDup(cs[k]) && forall ch :: ch in cs[k] ==> ch in A
  }

  /** Cycle text that denotes a bijection of the alphabet: the identity, or
      text that splits into disjoint duplicate-free cycles over `A`. */
  ghost predicate Bijective(A: seq<char>, text: seq<char>)
  {
    text == [] || (Helper(text).Ok? && Disjoint(Helper(text).value) && CyclesOver(A, Helper(text).value))
  }

  /** A bijection whose cycles have at most two symbols: its own inverse. */
  ghost predicate Involutive(A: seq<char>, text: seq<char>)
  {
    Bijective(A, text) &&
    (text == [] || forall k :: 0 <= k < |Helper(text).value| ==> |Helper(text).value[k]| <= 2)
  }
}
