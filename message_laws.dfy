/** The message loop (Machine.java, `convert(String)`): what it copies, what
    it keeps, and the machine's reciprocity over a whole message: a second
    machine started at the same settings turns the output back into the
    (upper-cased) input. */
module MessageLaws {
  import opened Outcomes
  import opened Text
  import opened Alphabets
  import opened Cycles
  import opened Rotors
  import opened Signals
  import opened StepLaws
  import opened CycleLaws
  import opened SignalLaws

  /** Every symbol of `s` is its own upper case. */
  predicate UpperFixed(s: seq<char>)
  {
    forall k :: 0 <= k < |s| ==> UpperChar(s[k]) == s[k]
  }

  lemma UpperOfFixed(s: seq<char>)
    requires UpperFixed(s)
    ensures Upper(s) == s
  {
  }

  lemma UpperIsFixed(s: seq<char>)
    ensures UpperFixed(Upper(s))
  {
    forall k | 0 <= k < |s| ensures UpperChar(Upper(s)[k]) == Upper(s)[k] {
      assert Upper(s)[k] == UpperChar(s[k]);
    }
  }

  /** The output has one symbol per input symbol. */
  lemma {:induction false} EncodeRunLength<T>(A: seq<char>, plug: seq<char>, pawls: int, S: seq<RotorState>, ids: seq<T>, m: seq<char>)
    requires |ids| == |S|
    ensures EncodeRun(A, plug, pawls, S, ids, m).text.Ok? ==> |EncodeRun(A, plug, pawls, S, ids, m).text.value| == |m|
  {
    if m != [] {
      EncodeRunLength(A, plug, pawls, S, ids, m[..|m| - 1]);
    }
  }

  /** A message with no symbol of the alphabet is copied unchanged and no
      rotor moves. */
  lemma {:induction false} PassThrough<T>(A: seq<char>, plug: seq<char>, pawls: int, S: seq<RotorState>, ids: seq<T>, m: seq<char>)
    requires |ids| == |S|
    requires forall k :: 0 <= k < |m| ==> m[k] !in A
    ensures EncodeRun(A, plug, pawls, S, ids, m) == Run(Ok(m), S)
  {
    if m != [] {
      var m' := m[..|m| - 1];
      PassThrough(A, plug, pawls, S, ids, m');
      assert m' + [m[|m| - 1]] == m;
    }
  }

  /** A pawl count that does not match the rotating slots: `convert(String)`
      throws before any rotor moves, and each `convert(int)` of the loop
      would throw too, so the loop copies every symbol and no rotor moves. */
  lemma {:induction false} PawlMismatch<T>(A: seq<char>, plug: seq<char>, pawls: int, S: seq<RotorState>, ids: seq<T>,
                                           msg: seq<char>, m: seq<char>)
    requires |ids| == |S| && CountRotating(S) != pawls
    ensures ConvertMessage(A, plug, pawls, S, ids, msg) == Run(Err(Reported), S)
    ensures EncodeRun(A, plug, pawls, S, ids, m) == Run(Ok(m), S)
  {
    if m != [] {
      var m' := m[..|m| - 1];
      PawlMismatch(A, plug, pawls, S, ids, msg, m');
      assert m' + [m[|m| - 1]] == m;
    }
  }

  /** A step keeps the conditions of reciprocity, which speak of wiring. */
  lemma StepKeepsReciprocal<T>(A: seq<char>, plug: seq<char>, S: seq<RotorState>, ids: seq<T>)
    requires Reciprocal(A, plug, S) && |ids| == |S|
    ensures Reciprocal(A, plug, Step(A, S, ids))
    ensures CountRotating(Step(A, S, ids)) == CountRotating(S)
  {
    StepKeepsWiring(A, S, ids);
    CountRotatingWiring(S, Step(A, S, ids));
  }

  /** Two key presses from the same rotor states: the second, given the
      first one's output, yields the first one's input, and both leave the
      same stepped states. */
  lemma KeystrokeTwice<T>(A: seq<char>, plug: seq<char>, pawls: int, S: seq<RotorState>, ids: seq<T>, c: int)
    requires Reciprocal(A, plug, S) && CountRotating(S) == pawls && |ids| == |S| && 0 <= c < |A|
    ensures Keystroke(A, plug, pawls, S, ids, c).out.Ok?
    ensures Keystroke(A, plug, pawls, S, ids, c).after == Step(A, S, ids)
    ensures Keystroke(A, plug, pawls, S, ids, Keystroke(A, plug, pawls, S, ids, c).out.value) ==
              Outcome(Ok(c), Step(A, S, ids))
  {
    var S' := Step(A, S, ids);
    StepKeepsReciprocal(A, plug, S, ids);
    SignalTwice(A, plug, S', c);
    var v := Signal(A, plug, S', c).value;
    PlugTwice(A, plug, c);
    PlugTwice(A, plug, v);
    KeystrokeIsSignal(A, plug, pawls, S, ids, c);
    KeystrokeIsSignal(A, plug, pawls, S, ids, v);
  }

  /** With the pawl count right and the plugboard accepting the key, a key
      press is the signal through the stepped rotors. */
  lemma KeystrokeIsSignal<T>(A: seq<char>, plug: seq<char>, pawls: int, S: seq<RotorState>, ids: seq<T>, c: int)
    requires CountRotating(S) == pawls && |ids| == |S| >= 1 && |A| > 0 && PermIdx(A, plug, c).Ok?
    ensures Keystroke(A, plug, pawls, S, ids, c) == Outcome(Signal(A, plug, Step(A, S, ids), c), Step(A, S, ids))
  {
  }

  /** One symbol of the message, encoded and then re-encoded from the same
      rotor states: the symbol comes back, and both passes end in the same
      states, which keep the conditions of reciprocity. */
  lemma CharTwice<T>(A: seq<char>, plug: seq<char>, pawls: int, ids: seq<T>, S: seq<RotorState>, ch: char,
                     t: seq<char>, u: seq<char>) returns (o: char)
    requires Reciprocal(A, plug, S) && CountRotating(S) == pawls && |ids| == |S|
    ensures EncodeChar(A, plug, pawls, ids, t, S, ch).text == Ok(t + [o])
    ensures EncodeChar(A, plug, pawls, ids, u, S, o) == Run(Ok(u + [ch]), EncodeChar(A, plug, pawls, ids, t, S, ch).after)
    ensures Reciprocal(A, plug, EncodeChar(A, plug, pawls, ids, t, S, ch).after)
    ensures CountRotating(EncodeChar(A, plug, pawls, ids, t, S, ch).after) == pawls
    ensures UpperFixed(A) && UpperChar(ch) == ch ==> UpperChar(o) == o
  {
    match LastIndex(A, ch)
    case Err(_) =>
      o := ch;
    case Ok(i) =>
      KeystrokeTwice(A, plug, pawls, S, ids, i);
      StepKeepsReciprocal(A, plug, S, ids);
      var v := Keystroke(A, plug, pawls, S, ids, i).out.value;
      o := A[v];
      LastIndexOfDistinct(A, v);
  }

  /** Reciprocity over a message: re-encoding the output from the same rotor
      states gives the message back and ends in the same states. */
  lemma {:induction false} EncodeRunTwice<T>(A: seq<char>, plug: seq<char>, pawls: int, S: seq<RotorState>, ids: seq<T>, m: seq<char>)
    requires Reciprocal(A, plug, S) && CountRotating(S) == pawls && |ids| == |S|
    ensures EncodeRun(A, plug, pawls, S, ids, m).text.Ok?
    ensures EncodeRun(A, plug, pawls, S, ids, EncodeRun(A, plug, pawls, S, ids, m).text.value) ==
              Run(Ok(m), EncodeRun(A, plug, pawls, S, ids, m).after)
    ensures Reciprocal(A, plug, EncodeRun(A, plug, pawls, S, ids, m).after)
    ensures CountRotating(EncodeRun(A, plug, pawls, S, ids, m).after) == pawls
    ensures UpperFixed(A) && UpperFixed(m) ==> UpperFixed(EncodeRun(A, plug, pawls, S, ids, m).text.value)
  {
    if m != [] {
      var m', ch := m[..|m| - 1], m[|m| - 1];
      EncodeRunTwice(A, plug, pawls, S, ids, m');
      var prev := EncodeRun(A, plug, pawls, S, ids, m');
      var t := prev.text.value;
      var o := CharTwice(A, plug, pawls, ids, prev.after, ch, t, m');
      assert (t + [o])[..|t|] == t;
      assert m' + [ch] == m;
      if UpperFixed(A) && UpperFixed(m) {
        assert UpperFixed(m') by {
          forall k | 0 <= k < |m'| ensures UpperChar(m'[k]) == m'[k] {
            assert m'[k] == m[k];
          }
        }
      }
    }
  }

  /** Reciprocity of `convert(String)`: with a plugboard and reflector made
      of swaps, bijective rotors and the right number of pawls, converting
      the output again from the same settings gives the upper-cased message
      back (when the alphabet is upper case). */
  lemma MessageTwice<T>(A: seq<char>, plug: seq<char>, pawls: int, S: seq<RotorState>, ids: seq<T>, msg: seq<char>)
    requires Reciprocal(A, plug, S) && CountRotating(S) == pawls && |ids| == |S| && UpperFixed(A)
    ensures ConvertMessage(A, plug, pawls, S, ids, msg).text.Ok?
    ensures ConvertMessage(A, plug, pawls, S, ids, ConvertMessage(A, plug, pawls, S, ids, msg).text.value) ==
              Run(Ok(Upper(msg)), ConvertMessage(A, plug, pawls, S, ids, msg).after)
  {
    var m := Upper(msg);
    UpperIsFixed(msg);
    EncodeRunTwice(A, plug, pawls, S, ids, m);
    UpperOfFixed(EncodeRun(A, plug, pawls, S, ids, m).text.value);
  }

  /** A failure ends the conversion: once the run over a prefix has failed,
      the rest of the message is not read and no rotor moves again. */
  lemma {:induction false} FailureEndsRun<T>(A: seq<char>, plug: seq<char>, pawls: int, S: seq<RotorState>, ids: seq<T>, m: seq<char>, j: nat)
    requires |ids| == |S| && j <= |m| && EncodeRun(A, plug, pawls, S, ids, m[..j]).text.Err?
    ensures EncodeRun(A, plug, pawls, S, ids, m) == EncodeRun(A, plug, pawls, S, ids, m[..j])
  {
    if j < |m| {
      var m' := m[..|m| - 1];
      assert m'[..j] == m[..j];
      FailureEndsRun(A, plug, pawls, S, ids, m', j);
    } else {
      assert m[..j] == m;
    }
  }
}
