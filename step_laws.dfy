/** Stepping (Machine.java, `convert(int)`): which slots advance, and what
    a step keeps. */
module StepLaws {
  import opened Outcomes
  import opened Modular
  import opened Alphabets
  import opened Rotors
  import opened Signals

  /** Two slot sequences with the same rotors in the same order, settings
      aside. */
  predicate SameWiring(S: seq<RotorState>, S': seq<RotorState>)
  {
    |S| == |S'| && forall k :: 0 <= k < |S| ==> S[k].kind == S'[k].kind && S[k].cycles == S'[k].cycles
  }

  /** The advance list holds the rightmost slot's rotor and the rotors of
      the pushing pairs examined so far, and nothing else. */
  lemma {:induction false} AdvanceSetMembers<T>(A: seq<char>, S: seq<RotorState>, ids: seq<T>, i: nat, x: T)
    requires |ids| == |S| >= 1 && i <= |S| - 1
    ensures x in AdvanceSet(A, S, ids, i) <==>
              x == ids[|S| - 1] || exists j :: 0 <= j < i && Pushes(A, S, j) && (x == ids[j] || x == ids[j + 1])
  {
    if i > 0 {
      AdvanceSetMembers(A, S, ids, i - 1, x);
    }
  }

  /** A step changes only settings: the rotors, their kinds and wiring stay. */
  lemma StepKeepsWiring<T>(A: seq<char>, S: seq<RotorState>, ids: seq<T>)
    requires |ids| == |S| >= 1 && |A| > 0
    ensures SameWiring(S, Step(A, S, ids))
  {
  }

  /** The pawl count depends on the kinds alone. */
  lemma {:induction false} CountRotatingWiring(S: seq<RotorState>, S': seq<RotorState>)
    requires SameWiring(S, S')
    ensures CountRotating(S) == CountRotating(S')
  {
    if S != [] {
      CountRotatingWiring(S[..|S| - 1], S'[..|S'| - 1]);
    }
  }

  /** Stepping with one rotor per slot: the rightmost slot advances; slot k
      advances when it pushes or is pushed, that is when its rotor and its
      right neighbour both rotate and the neighbour is at a notch, or when it
      and its left neighbour both rotate and it is at a notch itself (a
      middle rotor at its notch moves with the rotor to its left: the double
      step); every other slot keeps its state.  Each advancing slot moves
      exactly once. */
  lemma StepOfDistinctRotors<T>(A: seq<char>, S: seq<RotorState>, ids: seq<T>, k: int)
    requires |ids| == |S| >= 1 && |A| > 0 && 0 <= k < |S|
    requires forall i, j :: 0 <= i < j < |ids| ==> ids[i] != ids[j]
    ensures Step(A, S, ids)[k] ==
              if k == |S| - 1 || (k < |S| - 1 && Pushes(A, S, k)) || (0 < k && Pushes(A, S, k - 1))
              then Advanced(A, S[k]) else S[k]
  {
    AdvanceSetMembers(A, S, ids, |S| - 1, ids[k]);
    if k < |S| - 1 && Pushes(A, S, k) {
      assert ids[k] in Advancing(A, S, ids);
    } else if 0 < k && Pushes(A, S, k - 1) {
      assert ids[k] in Advancing(A, S, ids);
    }
  }

  /** With shared rotors: a slot's state after the step is advanced exactly
      when its rotor is the rightmost slot's rotor or belongs to a pushing
      pair; all notch tests read the states before the step. */
  lemma StepBySharedRotor<T>(A: seq<char>, S: seq<RotorState>, ids: seq<T>, k: int)
    requires |ids| == |S| >= 1 && |A| > 0 && 0 <= k < |S|
    ensures Step(A, S, ids)[k] ==
              if ids[k] == ids[|S| - 1] || exists j :: 0 <= j < |S| - 1 && Pushes(A, S, j) && (ids[k] == ids[j] || ids[k] == ids[j + 1])
              then Advanced(A, S[k]) else S[k]
  {
    AdvanceSetMembers(A, S, ids, |S| - 1, ids[k]);
  }

  /** Two slots holding the same rotor object agree after a step when they
      agreed before it: a shared rotor is advanced once, not once per slot. */
  lemma StepKeepsSharing<T>(A: seq<char>, S: seq<RotorState>, ids: seq<T>, i: int, j: int)
    requires |ids| == |S| >= 1 && |A| > 0 && 0 <= i < |S| && 0 <= j < |S|
    requires ids[i] == ids[j] && S[i] == S[j]
    ensures Step(A, S, ids)[i] == Step(A, S, ids)[j]
  {
  }

  /** Settings of a reflector and three moving rotors with notches Q, E, V
      on A..Z (the historical rotors I, II, III). */
  function Bank(left: int, middle: int, right: int): seq<RotorState>
  {
    [RotorState(Reflector, [], 0), RotorState(Moving("Q"), [], left),
     RotorState(Moving("E"), [], middle), RotorState(Moving("V"), [], right)]
  }

  /** The double step: from A-E-V the right rotor's notch moves the middle
      rotor, and the middle rotor at its own notch moves the left one with
      it, so one key press gives B-F-W; the middle rotor moves once, though
      two pairs name it. */
  lemma DoubleStep()
    ensures Step(Uppercase, Bank(0, 4, 21), [0, 1, 2, 3]) == Bank(1, 5, 22)
  {
    var S, ids := Bank(0, 4, 21), [0, 1, 2, 3];
    assert Uppercase[21] == 'V' && Uppercase[4] == 'E' && Uppercase[0] == 'A';
    assert Pushes(Uppercase, S, 2) && Pushes(Uppercase, S, 1) && !Pushes(Uppercase, S, 0);
    StepOfDistinctRotors(Uppercase, S, ids, 0);
    StepOfDistinctRotors(Uppercase, S, ids, 1);
    StepOfDistinctRotors(Uppercase, S, ids, 2);
    StepOfDistinctRotors(Uppercase, S, ids, 3);
  }

  /** After the double step, B-F-W is off every notch: the next press only
      moves the right rotor. */
  lemma StepAfterDoubleStep()
    ensures Step(Uppercase, Bank(1, 5, 22), [0, 1, 2, 3]) == Bank(1, 5, 23)
  {
    var S, ids := Bank(1, 5, 22), [0, 1, 2, 3];
    assert Uppercase[22] == 'W' && Uppercase[5] == 'F' && Uppercase[1] == 'B';
    assert !Pushes(Uppercase, S, 2) && !Pushes(Uppercase, S, 1) && !Pushes(Uppercase, S, 0);
    StepOfDistinctRotors(Uppercase, S, ids, 0);
    StepOfDistinctRotors(Uppercase, S, ids, 1);
    StepOfDistinctRotors(Uppercase, S, ids, 2);
    StepOfDistinctRotors(Uppercase, S, ids, 3);
  }
}
