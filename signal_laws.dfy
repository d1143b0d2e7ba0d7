/** The signal path (Machine.java, `convert(int)`): the way back through the
    rotors undoes the way in, and with a reflector and a plugboard made of
    swaps the whole substitution is its own inverse. */
module SignalLaws {
  import opened Outcomes
  import opened Modular
  import opened Alphabets
  import opened Cycles
  import opened CycleLaws
  import opened Rotors
  import opened Signals

  /** Every slot in lo .. hi-1 holds a bijective wiring. */
  ghost predicate AllBijective(A: seq<char>, S: seq<RotorState>, lo: nat, hi: nat)
    requires hi <= |S|
  {
    forall k :: lo <= k < hi ==> Bijective(A, S[k].cycles)
  }

  // ---------------------------------------------------------------------
  // Passes over an arbitrary per-slot map.  The round trip is proved once
  // for any pair of maps that undo each other slot by slot, and then
  // specialised to the rotors' forward and backward maps.
  // ---------------------------------------------------------------------

  /** The rotors' forward map as a value. */
  function ForwardOf(A: seq<char>): (RotorState, int) -> Result<int>
  {
    (r, x) => Forward(A, r, x)
  }

  /** The rotors' backward map as a value. */
  function BackwardOf(A: seq<char>): (RotorState, int) -> Result<int>
  {
    (r, x) => Backward(A, r, x)
  }

  /** Slots hi-1 down to lo through f, as `Fwd` goes. */
  function Down(f: (RotorState, int) -> Result<int>, S: seq<RotorState>, lo: nat, hi: nat, c: int): Result<int>
    requires hi <= |S|
    decreases hi
  {
    if hi <= lo then Ok(c)
    else match f(S[hi - 1], c)
      case Err(e) => Err(e)
      case Ok(v) => Down(f, S, lo, hi - 1, v)
  }

  /** Slots lo up to hi-1 through g, as `Bwd` goes. */
  function Up(g: (RotorState, int) -> Result<int>, S: seq<RotorState>, lo: nat, hi: nat, c: int): Result<int>
    requires hi <= |S|
    decreases hi - lo
  {
    if hi <= lo then Ok(c)
    else match g(S[lo], c)
      case Err(e) => Err(e)
      case Ok(v) => Up(g, S, lo + 1, hi, v)
  }

  /** g undoes f on every symbol index below n, for rotor state r. */
  ghost predicate UndoesAt(g: (RotorState, int) -> Result<int>, f: (RotorState, int) -> Result<int>,
                           n: int, r: RotorState)
  {
    forall x {:trigger f(r, x)} :: 0 <= x < n ==> f(r, x).Ok? && 0 <= f(r, x).value < n && g(r, f(r, x).value) == Ok(x)
  }

  /** g undoes f in every slot lo .. hi-1. */
  ghost predicate Undoes(g: (RotorState, int) -> Result<int>, f: (RotorState, int) -> Result<int>,
                         n: int, S: seq<RotorState>, lo: nat, hi: nat)
    requires hi <= |S|
  {
    forall k :: lo <= k < hi ==> UndoesAt(g, f, n, S[k])
  }

  /** `Down` seen from its far end: slots lo+1 .. hi-1 first, then slot lo. */
  lemma {:induction false} DownLast(f: (RotorState, int) -> Result<int>, S: seq<RotorState>, lo: nat, hi: nat, c: int)
    requires lo < hi <= |S|
    ensures Down(f, S, lo, hi, c) ==
              match Down(f, S, lo + 1, hi, c)
              case Err(e) => Err(e)
              case Ok(v) => f(S[lo], v)
    decreases hi
  {
    if hi > lo + 1 {
      match f(S[hi - 1], c)
      case Err(e) =>
      case Ok(v) => DownLast(f, S, lo, hi - 1, v);
    }
  }

  /** `Up` seen from its far end: slots lo .. hi-2 first, then slot hi-1. */
  lemma {:induction false} UpLast(g: (RotorState, int) -> Result<int>, S: seq<RotorState>, lo: nat, hi: nat, c: int)
    requires lo < hi <= |S|
    ensures Up(g, S, lo, hi, c) ==
              match Up(g, S, lo, hi - 1, c)
              case Err(e) => Err(e)
              case Ok(v) => g(S[hi - 1], v)
    decreases hi - lo
  {
    if hi > lo + 1 {
      match g(S[lo], c)
      case Err(e) =>
      case Ok(v) => UpLast(g, S, lo + 1, hi, v);
    }
  }

  /** When g undoes f slot by slot, going up through g undoes going down
      through f. */
  lemma {:induction false} DownThenUp(f: (RotorState, int) -> Result<int>, g: (RotorState, int) -> Result<int>,
                                      n: int, S: seq<RotorState>, lo: nat, hi: nat, c: int) returns (y: int)
    requires hi <= |S| && Undoes(g, f, n, S, lo, hi) && 0 <= c < n
    ensures Down(f, S, lo, hi, c) == Ok(y) && 0 <= y < n && Up(g, S, lo, hi, y) == Ok(c)
    decreases hi
  {
    if lo < hi {
      var v := f(S[hi - 1], c).value;
      y := DownThenUp(f, g, n, S, lo, hi - 1, v);
      UpLast(g, S, lo, hi, y);
    } else {
      y := c;
    }
  }

  /** When f undoes g slot by slot, going down through f undoes going up
      through g. */
  lemma {:induction false} UpThenDown(f: (RotorState, int) -> Result<int>, g: (RotorState, int) -> Result<int>,
                                      n: int, S: seq<RotorState>, lo: nat, hi: nat, c: int) returns (y: int)
    requires hi <= |S| && Undoes(f, g, n, S, lo, hi) && 0 <= c < n
    ensures Up(g, S, lo, hi, c) == Ok(y) && 0 <= y < n && Down(f, S, lo, hi, y) == Ok(c)
    decreases hi - lo
  {
    if lo < hi {
      var v := g(S[lo], c).value;
      y := UpThenDown(f, g, n, S, lo + 1, hi, v);
      DownLast(f, S, lo, hi, y);
    } else {
      y := c;
    }
  }

  /** `Fwd` is `Down` through the forward map. */
  lemma {:induction false} FwdIsDown(A: seq<char>, S: seq<RotorState>, lo: nat, hi: nat, c: int)
    requires hi <= |S|
    ensures Fwd(A, S, lo, hi, c) == Down(ForwardOf(A), S, lo, hi, c)
    decreases hi
  {
    if lo < hi {
      match Forward(A, S[hi - 1], c)
      case Err(e) =>
      case Ok(v) => FwdIsDown(A, S, lo, hi - 1, v);
    }
  }

  /** `Bwd` is `Up` through the backward map. */
  lemma {:induction false} BwdIsUp(A: seq<char>, S: seq<RotorState>, lo: nat, hi: nat, c: int)
    requires hi <= |S|
    ensures Bwd(A, S, lo, hi, c) == Up(BackwardOf(A), S, lo, hi, c)
    decreases hi - lo
  {
    if lo < hi {
      match Backward(A, S[lo], c)
      case Err(e) =>
      case Ok(v) => BwdIsUp(A, S, lo + 1, hi, v);
    }
  }

  /** Going back through slots lo .. hi-1 undoes going in through them. */
  lemma {:induction false} BwdUndoesFwd(A: seq<char>, S: seq<RotorState>, lo: nat, hi: nat, c: int)
    requires hi <= |S| && NoDup(A) && |A| > 0 && AllBijective(A, S, lo, hi) && 0 <= c < |A|
    ensures Fwd(A, S, lo, hi, c).Ok? && 0 <= Fwd(A, S, lo, hi, c).value < |A|
    ensures Bwd(A, S, lo, hi, Fwd(A, S, lo, hi, c).value) == Ok(c)
  {
    forall k | lo <= k < hi ensures UndoesAt(BackwardOf(A), ForwardOf(A), |A|, S[k]) {
      forall x | 0 <= x < |A|
        ensures ForwardOf(A)(S[k], x).Ok? && 0 <= ForwardOf(A)(S[k], x).value < |A|
        ensures BackwardOf(A)(S[k], ForwardOf(A)(S[k], x).value) == Ok(x)
      {
        ForwardThenBackward(A, S[k], x);
      }
    }
    var y := DownThenUp(ForwardOf(A), BackwardOf(A), |A|, S, lo, hi, c);
    FwdIsDown(A, S, lo, hi, c);
    BwdIsUp(A, S, lo, hi, y);
  }

  /** Going in through slots lo .. hi-1 undoes going back through them. */
  lemma {:induction false} FwdUndoesBwd(A: seq<char>, S: seq<RotorState>, lo: nat, hi: nat, c: int)
    requires hi <= |S| && NoDup(A) && |A| > 0 && AllBijective(A, S, lo, hi) && 0 <= c < |A|
    ensures Bwd(A, S, lo, hi, c).Ok? && 0 <= Bwd(A, S, lo, hi, c).value < |A|
    ensures Fwd(A, S, lo, hi, Bwd(A, S, lo, hi, c).value) == Ok(c)
  {
    forall k | lo <= k < hi ensures UndoesAt(ForwardOf(A), BackwardOf(A), |A|, S[k]) {
      forall x | 0 <= x < |A|
        ensures BackwardOf(A)(S[k], x).Ok? && 0 <= BackwardOf(A)(S[k], x).value < |A|
        ensures ForwardOf(A)(S[k], BackwardOf(A)(S[k], x).value) == Ok(x)
      {
        BackwardThenForward(A, S[k], x);
      }
    }
    var y := UpThenDown(ForwardOf(A), BackwardOf(A), |A|, S, lo, hi, c);
    BwdIsUp(A, S, lo, hi, c);
    FwdIsDown(A, S, lo, hi, y);
  }

  /** A reflector with involutive wiring, at any setting, is its own
      inverse. */
  lemma ReflectTwice(A: seq<char>, r: RotorState, x: int)
    requires NoDup(A) && |A| > 0 && Involutive(A, r.cycles) && 0 <= x < |A|
    ensures Forward(A, r, x).Ok? && Forward(A, r, Forward(A, r, x).value) == Ok(x)
  {
    ForwardThenBackward(A, r, x);
    InvolutiveRotorSymmetric(A, r, Forward(A, r, x).value);
  }

  /** A plugboard of swaps applied twice gives the index back. */
  lemma PlugTwice(A: seq<char>, plug: seq<char>, x: int)
    requires NoDup(A) && |A| > 0 && Involutive(A, plug) && 0 <= x < |A|
    ensures PermIdx(A, plug, x).Ok? && PermIdx(A, plug, PermIdx(A, plug, x).value) == Ok(x)
  {
    PermuteThenInvert(A, plug, x);
    InvolutionAgrees(A, plug, PermIdx(A, plug, x).value);
    WrapInRange(x, |A|);
  }

  /** The conditions of reciprocity: a duplicate-free alphabet, a plugboard
      and a reflector (slot 0) made of swaps, bijective rotors elsewhere. */
  ghost predicate Reciprocal(A: seq<char>, plug: seq<char>, S: seq<RotorState>)
  {
    NoDup(A) && |A| > 0 && Involutive(A, plug) && |S| >= 1 &&
    Involutive(A, S[0].cycles) && AllBijective(A, S, 1, |S|)
  }

  /** The full path in and out through the rotors, between the plugboard
      passes, is an involution. */
  lemma {:induction false} RotorPathTwice(A: seq<char>, S: seq<RotorState>, a: int)
    requires NoDup(A) && |A| > 0 && |S| >= 1 && Involutive(A, S[0].cycles) && AllBijective(A, S, 1, |S|)
    requires 0 <= a < |A|
    ensures RotorPath(A, S, a).Ok? && 0 <= RotorPath(A, S, a).value < |A|
    ensures RotorPath(A, S, RotorPath(A, S, a).value) == Ok(a)
  {
    var n := |S|;
    BwdUndoesFwd(A, S, 1, n, a);
    var b := Fwd(A, S, 1, n, a).value;
    ReflectTwice(A, S[0], b);
    var d := Forward(A, S[0], b).value;
    RotorPathThrough(A, S, a, b, d);
    FwdUndoesBwd(A, S, 1, n, d);
    var e := Bwd(A, S, 1, n, d).value;
    RotorPathThrough(A, S, e, d, b);
  }

  /** The rotor path when the way in reaches the reflector at b and leaves
      it at d. */
  lemma RotorPathThrough(A: seq<char>, S: seq<RotorState>, a: int, b: int, d: int)
    requires |S| >= 1 && Fwd(A, S, 1, |S|, a) == Ok(b) && Forward(A, S[0], b) == Ok(d)
    ensures RotorPath(A, S, a) == Bwd(A, S, 1, |S|, d)
  {
    ReachReflector(A, S, a, b, d);
  }

  /** The way in through every slot ends where the reflector sends it. */
  lemma ReachReflector(A: seq<char>, S: seq<RotorState>, a: int, b: int, d: int)
    requires |S| >= 1 && Fwd(A, S, 1, |S|, a) == Ok(b) && Forward(A, S[0], b) == Ok(d)
    ensures Fwd(A, S, 0, |S|, a) == Ok(d)
  {
    FwdIsDown(A, S, 0, |S|, a);
    FwdIsDown(A, S, 1, |S|, a);
    DownLast(ForwardOf(A), S, 0, |S|, a);
  }

  /** Reciprocity for one key at fixed rotor settings: encoding the output
      again gives the input back. */
  lemma SignalTwice(A: seq<char>, plug: seq<char>, S: seq<RotorState>, c: int)
    requires Reciprocal(A, plug, S) && 0 <= c < |A|
    ensures Signal(A, plug, S, c).Ok?
    ensures Signal(A, plug, S, Signal(A, plug, S, c).value) == Ok(c)
  {
    PlugTwice(A, plug, c);
    var a := PermIdx(A, plug, c).value;
    RotorPathTwice(A, S, a);
    var e := RotorPath(A, S, a).value;
    PlugTwice(A, plug, e);
    var out := PermIdx(A, plug, e).value;
    assert Signal(A, plug, S, c) == Ok(out);
  }
}
