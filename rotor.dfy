/** The rotor family.  The base `Rotor`, `MovingRotor` and `Reflector`
    classes are outside this model; their behaviour below is an
    assumption, restricted to what Machine.java calls:
    - convertForward(c)  = wrap(permute(c + setting) - setting),
    - convertBackward(c) = wrap(invert(c + setting) - setting),
    - advance() of a moving rotor sets setting to wrap(setting + 1); the
      other kinds do nothing (FixedRotor.java states this for its kind),
    - atNotch() holds for a moving rotor whose setting's symbol is one of
      its notches, and never for the other kinds,
    - set(ch) sets the setting to toInt(ch). */
module Rotors {
  import opened Outcomes
  import opened Modular
  import opened Alphabets
  import opened Cycles
  import opened CycleLaws
  import opened Permutations

  /** The three variants: one tag instead of the class hierarchy. */
  datatype Kind = Moving(notches: seq<char>) | Fixed | Reflector

  /** A rotor's observable state: kind, wiring text and setting. */
  datatype RotorState = RotorState(kind: Kind, cycles: seq<char>, setting: int)

  predicate Rotates(r: RotorState) { r.kind.Moving? }

  predicate Reflecting(r: RotorState) { r.kind.Reflector? }

  predicate AtNotch(A: seq<char>, r: RotorState)
  {
    r.kind.Moving? && 0 <= r.setting < |A| && A[r.setting] in r.kind.notches
  }

  /** The state after one `advance()`. */
  function Advanced(A: seq<char>, r: RotorState): RotorState
    requires r.kind.Moving? ==> |A| > 0
  {
    if r.kind.Moving? then r.(setting := Wrap(r.setting + 1, |A|)) else r
  }

  /** The state after `k` calls of `advance()`. */
  function AdvancedTimes(A: seq<char>, r: RotorState, k: nat): RotorState
    requires r.kind.Moving? ==> |A| > 0
  {
    if k == 0 then r else Advanced(A, AdvancedTimes(A, r, k - 1))
  }

  function Forward(A: seq<char>, r: RotorState, c: int): (o: Result<int>)
    ensures o.Ok? ==> |A| > 0 && 0 <= o.value < |A|
  {
    match PermIdx(A, r.cycles, c + r.setting)
    case Err(e) => Err(e)
    case Ok(v) => Ok(Wrap(v - r.setting, |A|))
  }

  function Backward(A: seq<char>, r: RotorState, c: int): (o: Result<int>)
    ensures o.Ok? ==> |A| > 0 && 0 <= o.value < |A|
  {
    match InvIdx(A, r.cycles, c + r.setting)
    case Err(e) => Err(e)
    case Ok(v) => Ok(Wrap(v - r.setting, |A|))
  }

  /** `advance()` of a non-rotating rotor (FixedRotor's override) changes
      nothing, however often it is called: the machine's unconditional
      advance of its rightmost slot is harmless when that slot is fixed. */
  lemma {:induction false} FixedAdvanceIsIdle(A: seq<char>, r: RotorState, k: nat)
    requires !r.kind.Moving?
    ensures AdvancedTimes(A, r, k) == r
  {
    if k > 0 {
      FixedAdvanceIsIdle(A, r, k - 1);
    }
  }

  /** A moving rotor's advance steps its setting by one, modulo the size,
      and keeps its wiring. */
  lemma MovingAdvanceSteps(A: seq<char>, r: RotorState)
    requires r.kind.Moving? && |A| > 0 && 0 <= r.setting < |A|
    ensures Advanced(A, r).cycles == r.cycles && Advanced(A, r).kind == r.kind
    ensures Advanced(A, r).setting == if r.setting == |A| - 1 then 0 else r.setting + 1
  {
    if r.setting < |A| - 1 {
      WrapInRange(r.setting + 1, |A|);
    } else {
      WrapShift(0, 1, |A|);
      WrapInRange(0, |A|);
    }
  }

  /** Through one rotor at any setting, backward undoes forward, when its
      wiring is a bijection. */
  lemma ForwardThenBackward(A: seq<char>, r: RotorState, x: int)
    requires NoDup(A) && |A| > 0 && Bijective(A, r.cycles) && 0 <= x < |A|
    ensures Forward(A, r, x).Ok? && Backward(A, r, Forward(A, r, x).value) == Ok(x)
  {
    PermuteThenInvert(A, r.cycles, x + r.setting);
    var v := PermIdx(A, r.cycles, x + r.setting).value;
    ForwardGives(A, r, x, v);
    BackwardUndoesShift(A, r, x, v);
  }

  /** ... and forward undoes backward. */
  lemma BackwardThenForward(A: seq<char>, r: RotorState, x: int)
    requires NoDup(A) && |A| > 0 && Bijective(A, r.cycles) && 0 <= x < |A|
    ensures Backward(A, r, x).Ok? && Forward(A, r, Backward(A, r, x).value) == Ok(x)
  {
    InvertThenPermute(A, r.cycles, x + r.setting);
    var v := InvIdx(A, r.cycles, x + r.setting).value;
    BackwardGives(A, r, x, v);
    ForwardUndoesShift(A, r, x, v);
  }

  lemma ForwardGives(A: seq<char>, r: RotorState, x: int, v: int)
    requires PermIdx(A, r.cycles, x + r.setting) == Ok(v)
    ensures Forward(A, r, x) == Ok(Wrap(v - r.setting, |A|))
  {
  }

  lemma BackwardGives(A: seq<char>, r: RotorState, x: int, v: int)
    requires InvIdx(A, r.cycles, x + r.setting) == Ok(v)
    ensures Backward(A, r, x) == Ok(Wrap(v - r.setting, |A|))
  {
  }

  /** The rotor-level step of the inverse law: when the index-level
      inverse sends v back to the shifted contact x + setting, the backward
      pass sends the forward answer back to x. */
  lemma BackwardUndoesShift(A: seq<char>, r: RotorState, x: int, v: int)
    requires |A| > 0 && 0 <= x < |A| && 0 <= v < |A|
    requires InvIdx(A, r.cycles, v) == Ok(Wrap(x + r.setting, |A|))
    ensures Backward(A, r, Wrap(v - r.setting, |A|)) == Ok(x)
  {
    ShiftDownUp(v, r.setting, |A|);
    BackwardAt(A, r, Wrap(v - r.setting, |A|), v, Wrap(x + r.setting, |A|));
    ShiftUpDown(x, r.setting, |A|);
  }

  lemma ForwardUndoesShift(A: seq<char>, r: RotorState, x: int, v: int)
    requires |A| > 0 && 0 <= x < |A| && 0 <= v < |A|
    requires PermIdx(A, r.cycles, v) == Ok(Wrap(x + r.setting, |A|))
    ensures Forward(A, r, Wrap(v - r.setting, |A|)) == Ok(x)
  {
    ShiftDownUp(v, r.setting, |A|);
    ForwardAt(A, r, Wrap(v - r.setting, |A|), v, Wrap(x + r.setting, |A|));
    ShiftUpDown(x, r.setting, |A|);
  }

  /** A rotor's passes depend on the shifted contact only modulo the size. */
  lemma ForwardAt(A: seq<char>, r: RotorState, c: int, v: int, w: int)
    requires |A| > 0 && Wrap(c + r.setting, |A|) == v && PermIdx(A, r.cycles, v) == Ok(w)
    ensures Forward(A, r, c) == Ok(Wrap(w - r.setting, |A|))
  {
    PermIdxWraps(A, r.cycles, c + r.setting);
  }

  lemma BackwardAt(A: seq<char>, r: RotorState, c: int, v: int, w: int)
    requires |A| > 0 && Wrap(c + r.setting, |A|) == v && InvIdx(A, r.cycles, v) == Ok(w)
    ensures Backward(A, r, c) == Ok(Wrap(w - r.setting, |A|))
  {
    PermIdxWraps(A, r.cycles, c + r.setting);
  }

  /** Shifting an in-range index down by s and back up by s, with wraps. */
  lemma ShiftDownUp(v: int, s: int, n: int)
    requires 0 <= v < n
    ensures Wrap(Wrap(v - s, n) + s, n) == v
  {
    WrapInner(v - s, s, n);
    WrapInRange(v, n);
  }

  /** Shifting an in-range index up by s and back down by s, with wraps. */
  lemma ShiftUpDown(v: int, s: int, n: int)
    requires 0 <= v < n
    ensures Wrap(Wrap(v + s, n) - s, n) == v
  {
    WrapInner(v + s, -s, n);
    WrapInRange(v, n);
  }

  /** With involutive wiring (a reflector made of 2-cycles) a rotor's
      forward and backward passes coincide, at every setting. */
  lemma InvolutiveRotorSymmetric(A: seq<char>, r: RotorState, c: int)
    requires |A| > 0 && Involutive(A, r.cycles)
    ensures Forward(A, r, c) == Backward(A, r, c)
  {
    InvolutionAgrees(A, r.cycles, c + r.setting);
  }

  class Rotor {
    const name: seq<char>
    const kind: Kind
    const perm: Permutation
    var setting: int

    /** A rotor named `name` with wiring `perm` at setting 0; with kind
        Fixed this is FixedRotor's constructor, which keeps no state of its
        own beyond what the base class holds. */
    constructor (name: seq<char>, kind: Kind, perm: Permutation)
      ensures this.name == name && this.kind == kind && this.perm == perm
      ensures setting == 0
    {
      this.name := name;
      this.kind := kind;
      this.perm := perm;
      setting := 0;
    }

    function State(): RotorState
      reads this, perm
    {
      RotorState(kind, perm.cycles, setting)
    }

    predicate Rotates() { kind.Moving? }

    predicate Reflecting() { kind.Reflector? }

    predicate AtNotch()
      reads this
    {
      kind.Moving? && 0 <= setting < perm.alphabet.Size() && perm.alphabet.chars[setting] in kind.notches
    }

    method Advance()
      requires kind.Moving? ==> perm.alphabet.Size() > 0
      modifies this
      ensures State() == Advanced(perm.alphabet.chars, old(State()))
    {
      if kind.Moving? {
        setting := Wrap(setting + 1, perm.alphabet.Size());
      }
    }

    /** `set(ch)`: the setting becomes the index of `ch`; a symbol outside
        the alphabet is a reported error and changes nothing. */
    method Set(ch: char) returns (r: Result<()>)
      requires perm.alphabet.Valid()
      modifies this
      ensures r.Ok? <==> ch in perm.alphabet.chars
      ensures r.Ok? ==> setting == LastIndex(perm.alphabet.chars, ch).value
      ensures r.Err? ==> r.fault == Reported && setting == old(setting)
    {
      var index := perm.alphabet.ToInt(ch);
      if index.Err? {
        return Err(Reported);
      }
      setting := index.value;
      return Ok(());
    }

    method ConvertForward(c: int) returns (r: Result<int>)
      requires perm.alphabet.Valid()
      ensures r == Forward(perm.alphabet.chars, State(), c)
    {
      var v := perm.Permute(c + setting);
      if v.Err? {
        return Err(v.fault);
      }
      return Ok(Wrap(v.value - setting, perm.alphabet.Size()));
    }

    method ConvertBackward(c: int) returns (r: Result<int>)
      requires perm.alphabet.Valid()
      ensures r == Backward(perm.alphabet.chars, State(), c)
    {
      var v := perm.Invert(c + setting);
      if v.Err? {
        return Err(v.fault);
      }
      return Ok(Wrap(v.value - setting, perm.alphabet.Size()));
    }
  }
}
