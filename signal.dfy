/** The machine's behaviour on values (Machine.java): which rotors a key
    press advances, the signal path through plugboard and rotors, and the
    message loop of `convert(String)`.  A slot holds the state of the rotor
    object in it; `ids` names those objects, so that two slots holding the
    same rotor are recognised, as the `contains` test of the advance list
    recognises them. */
module Signals {
  import opened Outcomes
  import opened Text
  import opened Modular
  import opened Alphabets
  import opened Cycles
  import opened Rotors

  /** The number of slots whose rotor rotates (the count loop). */
  function CountRotating(S: seq<RotorState>): nat
  {
    if S == [] then 0
    else CountRotating(S[..|S| - 1]) + (if S[|S| - 1].kind.Moving? then 1 else 0)
  }

  /** Slots i and i+1 push each other: both rotate and slot i+1 sits at a
      notch. */
  predicate Pushes(A: seq<char>, S: seq<RotorState>, i: int)
    requires 0 <= i < |S| - 1
  {
    AtNotch(A, S[i + 1]) && S[i].kind.Moving? && S[i + 1].kind.Moving?
  }

  /** The rotors on the advance list after the pairs (0,1) .. (i-1,i) were
      examined: the last slot's rotor, and both rotors of every pushing
      pair.  Every test reads the states before the step. */
  function AdvanceSet<T(==)>(A: seq<char>, S: seq<RotorState>, ids: seq<T>, i: nat): set<T>
    requires |ids| == |S| >= 1 && i <= |S| - 1
  {
    if i == 0 then {ids[|ids| - 1]}
    else AdvanceSet(A, S, ids, i - 1) + (if Pushes(A, S, i - 1) then {ids[i - 1], ids[i]} else {})
  }

  function Advancing<T(==)>(A: seq<char>, S: seq<RotorState>, ids: seq<T>): set<T>
    requires |ids| == |S| >= 1
  {
    AdvanceSet(A, S, ids, |S| - 1)
  }

  /** The states after the step: each slot whose rotor is on the advance list
      has advanced once; the others are as they were. */
  function Step<T(==)>(A: seq<char>, S: seq<RotorState>, ids: seq<T>): (S': seq<RotorState>)
    requires |ids| == |S| >= 1 && |A| > 0
    ensures |S'| == |S|
  {
    var adv := Advancing(A, S, ids);
    seq(|S|, k requires 0 <= k < |S| => if ids[k] in adv then Advanced(A, S[k]) else S[k])
  }

  /** `convertForward` through slots hi-1 down to lo. */
  function Fwd(A: seq<char>, S: seq<RotorState>, lo: nat, hi: nat, c: int): Result<int>
    requires hi <= |S|
    decreases hi
  {
    if hi <= lo then Ok(c)
    else match Forward(A, S[hi - 1], c)
      case Err(e) => Err(e)
      case Ok(v) => Fwd(A, S, lo, hi - 1, v)
  }

  /** `convertBackward` through slots lo up to hi-1. */
  function Bwd(A: seq<char>, S: seq<RotorState>, lo: nat, hi: nat, c: int): Result<int>
    requires hi <= |S|
    decreases hi - lo
  {
    if hi <= lo then Ok(c)
    else match Backward(A, S[lo], c)
      case Err(e) => Err(e)
      case Ok(v) => Bwd(A, S, lo + 1, hi, v)
  }

  /** The rotor part of the signal path: every slot from the last down to
      the reflector in slot 0, then slots 1 .. last back. */
  function RotorPath(A: seq<char>, S: seq<RotorState>, a: int): Result<int>
  {
    match Fwd(A, S, 0, |S|, a)
    case Err(e) => Err(e)
    case Ok(d) => Bwd(A, S, 1, |S|, d)
  }

  /** The signal path at fixed rotor states: plugboard, rotors, plugboard
      (`permute` both times). */
  function Signal(A: seq<char>, plug: seq<char>, S: seq<RotorState>, c: int): (r: Result<int>)
    ensures r.Ok? ==> 0 <= r.value < |A|
  {
    match PermIdx(A, plug, c)
    case Err(e) => Err(e)
    case Ok(a) =>
      match RotorPath(A, S, a)
      case Err(e) => Err(e)
      case Ok(b) => PermIdx(A, plug, b)
  }

  /** What one `convert(int)` yields and the slot states it leaves. */
  datatype Outcome = Outcome(out: Result<int>, after: seq<RotorState>)

  /** `convert(int)`: the pawl check and the first plugboard pass come
      before any change; an empty slot array fails when it reads the last
      slot; then the step, and the signal through the stepped rotors.  An
      error after the step leaves the rotors stepped. */
  function Keystroke<T(==)>(A: seq<char>, plug: seq<char>, pawls: int, S: seq<RotorState>, ids: seq<T>, c: int): (r: Outcome)
    requires |ids| == |S|
    ensures |r.after| == |S|
    ensures r.out.Ok? ==> 0 <= r.out.value < |A|
  {
    if CountRotating(S) != pawls then Outcome(Err(Reported), S)
    else match PermIdx(A, plug, c)
      case Err(e) => Outcome(Err(e), S)
      case Ok(a) =>
        if |S| == 0 then Outcome(Err(Crash), S)
        else
          var S' := Step(A, S, ids);
          Outcome(Signal(A, plug, S', c), S')
  }

  /** The output so far of `convert(String)` and the slot states. */
  datatype Run = Run(text: Result<seq<char>>, after: seq<RotorState>)

  /** One character of the message loop: a symbol outside the alphabet is
      copied; a reported error of `convert(int)` copies the character too
      but keeps the step; any other failure ends the conversion. */
  function EncodeChar<T(==)>(A: seq<char>, plug: seq<char>, pawls: int, ids: seq<T>, text: seq<char>, S: seq<RotorState>, ch: char): (r: Run)
    requires |ids| == |S|
    ensures |r.after| == |S|
  {
    match LastIndex(A, ch)
    case Err(_) => Run(Ok(text + [ch]), S)
    case Ok(i) =>
      var k := Keystroke(A, plug, pawls, S, ids, i);
      match k.out
      case Ok(v) => Run(Ok(text + [A[v]]), k.after)
      case Err(Reported) => Run(Ok(text + [ch]), k.after)
      case Err(Crash) => Run(Err(Crash), k.after)
  }

  /** The message loop over an already upper-cased message. */
  function EncodeRun<T(==)>(A: seq<char>, plug: seq<char>, pawls: int, S: seq<RotorState>, ids: seq<T>, m: seq<char>): (r: Run)
    requires |ids| == |S|
    ensures |r.after| == |S|
  {
    if m == [] then Run(Ok([]), S)
    else
      var prev := EncodeRun(A, plug, pawls, S, ids, m[..|m| - 1]);
      if prev.text.Err? then prev
      else EncodeChar(A, plug, pawls, ids, prev.text.value, prev.after, m[|m| - 1])
  }

  /** `convert(String)`: the pawl check, which is not caught, then the loop
      over the upper-cased message. */
  function ConvertMessage<T(==)>(A: seq<char>, plug: seq<char>, pawls: int, S: seq<RotorState>, ids: seq<T>, msg: seq<char>): (r: Run)
    requires |ids| == |S|
    ensures |r.after| == |S|
  {
    if CountRotating(S) != pawls then Run(Err(Reported), S)
    else EncodeRun(A, plug, pawls, S, ids, Upper(msg))
  }
}
