/** Permutation.java: cycle text over an alphabet, re-split on every lookup. */
module Permutations {
  import opened Outcomes
  import opened Text
  import opened Modular
  import opened Alphabets
  import opened Cycles

  class Permutation {
    const alphabet: Alphabet
    /** The cycle text exactly as given and appended to; never validated. */
    var cycles: seq<char>

    constructor (cycles: seq<char>, alphabet: Alphabet)
      ensures this.cycles == cycles && this.alphabet == alphabet
    {
      this.alphabet := alphabet;
      this.cycles := cycles;
    }

    /** Appends more cycle text; no check that the new cycles are disjoint
        from the old ones. */
    method AddCycles(extra: seq<char>)
      modifies this
      ensures cycles == old(cycles) + extra
    {
      cycles := cycles + extra;
    }

    function Size(): nat
    {
      alphabet.Size()
    }

    /** `permute(char)`: scans every split cycle, the last one holding `p`
        deciding. */
    method PermuteChar(p: char) returns (r: Result<char>)
      ensures r == PermuteText(cycles, p)
    {
      if cycles == [] {
        return Ok(p);
      }
      var split := Helper(cycles);
      if split.Err? {
        return Err(split.fault);
      }
      var cs := split.value;
      var answer := p;
      var i := 0;
      while i < |cs|
        invariant 0 <= i <= |cs|
        invariant answer == PermuteIn(cs[..i], p)
      {
        assert cs[..i + 1][..i] == cs[..i] && cs[..i + 1][i] == cs[i];
        if p in cs[i] {
          var index := IndexOf(cs[i], p);
          if index != |cs[i]| - 1 {
            answer := cs[i][index + 1];
          } else {
            answer := cs[i][0];
          }
          assert answer == Succ(cs[i], p);
        }
        i := i + 1;
      }
      assert cs[..i] == cs;
      return Ok(answer);
    }

    /** `invert(char)`: the same scan with the predecessor. */
    method InvertChar(c: char) returns (r: Result<char>)
      ensures r == InvertText(cycles, c)
    {
      if cycles == [] {
        return Ok(c);
      }
      var split := Helper(cycles);
      if split.Err? {
        return Err(split.fault);
      }
      var cs := split.value;
      var answer := c;
      var i := 0;
      while i < |cs|
        invariant 0 <= i <= |cs|
        invariant answer == InvertIn(cs[..i], c)
      {
        assert cs[..i + 1][..i] == cs[..i] && cs[..i + 1][i] == cs[i];
        if c in cs[i] {
          var index := IndexOf(cs[i], c);
          if index != 0 {
            answer := cs[i][index - 1];
          } else {
            answer := cs[i][|cs[i]| - 1];
          }
          assert answer == Pred(cs[i], c);
        }
        i := i + 1;
      }
      assert cs[..i] == cs;
      return Ok(answer);
    }

    /** `permute(int)`: wrap, look up the symbol, map it, and find the
        answer's index again. */
    method Permute(p: int) returns (r: Result<int>)
      requires alphabet.Valid()
      ensures r == PermIdx(alphabet.chars, cycles, p)
    {
      if alphabet.Size() == 0 {
        return Err(Crash);
      }
      var i := JavaWrap(p, alphabet.Size());
      JavaWrapIsWrap(p, alphabet.Size());
      var apply := alphabet.ToChar(i);
      var output := PermuteChar(apply.value);
      if output.Err? {
        return Err(output.fault);
      }
      var index := alphabet.ToInt(output.value);
      if index.Err? {
        return Err(index.fault);
      }
      return Ok(index.value);
    }

    /** `invert(int)`. */
    method Invert(c: int) returns (r: Result<int>)
      requires alphabet.Valid()
      ensures r == InvIdx(alphabet.chars, cycles, c)
    {
      if alphabet.Size() == 0 {
        return Err(Crash);
      }
      var i := JavaWrap(c, alphabet.Size());
      JavaWrapIsWrap(c, alphabet.Size());
      var apply := alphabet.ToChar(i);
      var output := InvertChar(apply.value);
      if output.Err? {
        return Err(output.fault);
      }
      var index := alphabet.ToInt(output.value);
      if index.Err? {
        return Err(index.fault);
      }
      return Ok(index.value);
    }

    /** `derangement()`: false as soon as a split cycle has one symbol. */
    method Derangement() returns (r: Result<bool>)
      ensures r == DerangementText(cycles)
    {
      var split := Helper(cycles);
      if split.Err? {
        return Err(split.fault);
      }
      var cs := split.value;
      var i := 0;
      while i < |cs|
        invariant 0 <= i <= |cs|
        invariant forall k :: 0 <= k < i ==> |cs[k]| != 1
      {
        if |cs[i]| == 1 {
          return Ok(false);
        }
        i := i + 1;
      }
      return Ok(true);
    }
  }
}
