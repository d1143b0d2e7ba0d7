/** Machine.java: the rotor slots, the plugboard, and the two `convert`
    operations, stated against the value-level model of signal.dfy.  Every
    rotor and the plugboard share the machine's alphabet object, as the
    driver builds them. */
module Machines {
  import opened Outcomes
  import opened Text
  import opened Alphabets
  import opened Cycles
  import opened Permutations
  import opened Rotors
  import opened Signals
  import opened MessageLaws

  predicate NoNull(rs: seq<Rotor?>)
  {
    forall k :: 0 <= k < |rs| ==> rs[k] != null
  }

  /** The states of the rotors in the slots, slot by slot. */
  function StatesOf(rs: seq<Rotor?>): (S: seq<RotorState>)
    requires NoNull(rs)
    reads set k | 0 <= k < |rs| :: rs[k]
    reads set k | 0 <= k < |rs| && rs[k] != null :: rs[k].perm
    ensures |S| == |rs|
    ensures forall k :: 0 <= k < |rs| ==> S[k] == rs[k].State()
  {
    if rs == [] then [] else StatesOf(rs[..|rs| - 1]) + [rs[|rs| - 1].State()]
  }

  // ---------------------------------------------------------------------
  // Name lookup (`insertRotors`)
  // ---------------------------------------------------------------------

  /** The map `insertRotors` builds: each rotor under its upper-cased name,
      a later rotor replacing an earlier one of the same name. */
  function NameTable(rs: seq<Rotor>): (t: map<seq<char>, Rotor>)
    ensures forall key :: key in t ==> t[key] in rs
  {
    if rs == [] then map[]
    else NameTable(rs[..|rs| - 1])[Upper(rs[|rs| - 1].name) := rs[|rs| - 1]]
  }

  /** The last rotor whose upper-cased name is `key`, or -1. */
  function LastNamed(rs: seq<Rotor>, key: seq<char>): (j: int)
    ensures -1 <= j < |rs|
    ensures j >= 0 ==> Upper(rs[j].name) == key && forall i :: j < i < |rs| ==> Upper(rs[i].name) != key
    ensures j == -1 ==> forall i :: 0 <= i < |rs| ==> Upper(rs[i].name) != key
  {
    if rs == [] then -1
    else if Upper(rs[|rs| - 1].name) == key then |rs| - 1
    else LastNamed(rs[..|rs| - 1], key)
  }

  /** The table finds a name exactly when some rotor has it, up to case,
      and then holds the last such rotor. */
  lemma {:induction false} NameTableFindsLast(rs: seq<Rotor>, key: seq<char>)
    ensures key in NameTable(rs) <==> LastNamed(rs, key) >= 0
    ensures key in NameTable(rs) ==> NameTable(rs)[key] == rs[LastNamed(rs, key)]
  {
    if rs != [] {
      NameTableFindsLast(rs[..|rs| - 1], key);
    }
  }

  /** What `myMap.get` gives for a name: null when no rotor has it. */
  function Lookup(rs: seq<Rotor>, name: seq<char>): Rotor?
  {
    Find(NameTable(rs), name)
  }

  /** `get` on the table with the upper-cased name. */
  function Find(table: map<seq<char>, Rotor>, name: seq<char>): Rotor?
  {
    var key := Upper(name);
    if key in table then table[key] else null
  }

  // ---------------------------------------------------------------------
  // Setting the rotors (`setRotors`)
  // ---------------------------------------------------------------------

  /** The slot at which the setting loop stops, from slot i on: the first
      empty slot, reflector, or setting symbol outside the alphabet, or the
      end. */
  function SetStop(A: seq<char>, rs: seq<Rotor?>, setting: seq<char>, i: nat): (stop: nat)
    requires 1 <= i <= |rs| && |setting| == |rs| - 1
    ensures i <= stop <= |rs|
    decreases |rs| - i
  {
    if i == |rs| || rs[i] == null || rs[i].kind.Reflector? || setting[i - 1] !in A then i
    else SetStop(A, rs, setting, i + 1)
  }

  /** How the loop ends when it stops at `stop`: an empty slot throws a null
      dereference; a reflector, or a symbol `set` cannot find, is reported. */
  function SetResult(rs: seq<Rotor?>, stop: nat): Result<()>
    requires stop <= |rs|
  {
    if stop == |rs| then Ok(())
    else if rs[stop] == null then Err(Crash)
    else Err(Reported)
  }

  /** The last slot in 1 .. hi-1 holding rotor x, or 0 when none does: the
      slot whose setting symbol x keeps. */
  function LastSlot(rs: seq<Rotor?>, x: Rotor, hi: nat): (j: nat)
    requires hi <= |rs|
    ensures j < hi || j == 0
    ensures j > 0 ==> rs[j] == x
    decreases hi
  {
    if hi <= 1 then 0 else if rs[hi - 1] == x then hi - 1 else LastSlot(rs, x, hi - 1)
  }

  /** The setting loop fails at the first bad slot, and runs to the end
      exactly when every slot after the reflector's holds a non-reflecting
      rotor and every setting symbol is in the alphabet. */
  lemma {:induction false} SetStopIsFirstBad(A: seq<char>, rs: seq<Rotor?>, setting: seq<char>, i: nat)
    requires 1 <= i <= |rs| && |setting| == |rs| - 1
    ensures var stop := SetStop(A, rs, setting, i);
      (forall k :: i <= k < stop ==> rs[k] != null && !rs[k].kind.Reflector? && setting[k - 1] in A) &&
      (stop < |rs| ==> rs[stop] == null || rs[stop].kind.Reflector? || setting[stop - 1] !in A)
    decreases |rs| - i
  {
    if i < |rs| && rs[i] != null && !rs[i].kind.Reflector? && setting[i - 1] in A {
      SetStopIsFirstBad(A, rs, setting, i + 1);
      var stop := SetStop(A, rs, setting, i + 1);
      assert SetStop(A, rs, setting, i) == stop;
      forall k | i <= k < stop ensures rs[k] != null && !rs[k].kind.Reflector? && setting[k - 1] in A {
        if k > i {
          assert i + 1 <= k < stop;
        }
      }
    } else {
      assert SetStop(A, rs, setting, i) == i;
    }
  }

  /** With one rotor per slot, a completed `setRotors` sets slot i (i >= 1)
      from symbol i-1 and leaves the reflector's slot 0 alone. */
  lemma {:induction false} LastSlotOfDistinct(rs: seq<Rotor?>, i: nat, hi: nat)
    requires hi <= |rs| && i < |rs| && rs[i] != null
    requires forall p, q :: 0 <= p < q < |rs| ==> rs[p] != rs[q]
    ensures LastSlot(rs, rs[i], hi) == if 1 <= i < hi then i else 0
    decreases hi
  {
    if hi > 1 && rs[hi - 1] != rs[i] {
      LastSlotOfDistinct(rs, i, hi - 1);
    }
  }

  /** The setting of rotor x once slots 1 .. hi-1 are set: the index of the
      symbol of the last of those slots holding x, or `prior` when none
      does. */
  predicate SetBy(A: seq<char>, rs: seq<Rotor?>, setting: seq<char>, x: Rotor, hi: nat, prior: int, now: int)
    requires hi <= |rs| && |setting| == |rs| - 1
  {
    var j := LastSlot(rs, x, hi);
    if j == 0 then now == prior else LastIndex(A, setting[j - 1]) == Ok(now)
  }

  /** Setting slot i to the index of its symbol extends `SetBy` by one slot;
      a rotor not in slot i keeps its setting. */
  lemma SetByStep(A: seq<char>, rs: seq<Rotor?>, setting: seq<char>, x: Rotor, i: nat, prior: int, mid: int, now: int)
    requires 1 <= i < |rs| && |setting| == |rs| - 1
    requires SetBy(A, rs, setting, x, i, prior, mid)
    requires rs[i] == x ==> LastIndex(A, setting[i - 1]) == Ok(now)
    requires rs[i] != x ==> now == mid
    ensures SetBy(A, rs, setting, x, i + 1, prior, now)
  {
  }

  /** The number of rotating rotors among the slots. */
  function RotatingIn(rs: seq<Rotor?>): nat
  {
    if rs == [] then 0
    else RotatingIn(rs[..|rs| - 1]) + (if rs[|rs| - 1] != null && rs[|rs| - 1].kind.Moving? then 1 else 0)
  }

  /** Counting rotating rotors is counting rotating slot states. */
  lemma {:induction false} RotatingInStates(rs: seq<Rotor?>)
    requires NoNull(rs)
    ensures RotatingIn(rs) == CountRotating(StatesOf(rs))
  {
    if rs != [] {
      var rs' := rs[..|rs| - 1];
      RotatingInStates(rs');
      assert StatesOf(rs)[..|rs| - 1] == StatesOf(rs');
    }
  }

  class Machine {
    const alphabet: Alphabet
    const numRotors: int
    const pawls: int
    const allRotors: seq<Rotor>
    /** `_myRotor`: null until `insertRotors`, a slot is null for a name
        not found. */
    var slots: array?<Rotor?>
    var plugboard: Permutation

    ghost predicate Valid()
      reads this, slots, alphabet.charList
    {
      alphabet.Valid() && plugboard.alphabet == alphabet &&
      (forall x :: x in allRotors ==> x.perm.alphabet == alphabet) &&
      (slots != null ==>
        slots.Length == numRotors &&
        forall i :: 0 <= i < slots.Length ==> slots[i] == null || slots[i] in allRotors)
    }

    /** The rotors in the slots: what `convert` and `setRotors` may change. */
    ghost function Slotted(): set<Rotor?>
      reads this, slots
    {
      if slots == null then {} else set i | 0 <= i < slots.Length :: slots[i]
    }

    /** The slots, all filled, as the value-level model sees them. */
    function A(): seq<char>
    {
      alphabet.chars
    }

    constructor (alpha: Alphabet, numRotors: int, pawls: int, allRotors: seq<Rotor>)
      requires alpha.Valid() && forall x :: x in allRotors ==> x.perm.alphabet == alpha
      ensures Valid() && slots == null && fresh(plugboard) && plugboard.cycles == []
      ensures alphabet == alpha && this.numRotors == numRotors && this.pawls == pawls && this.allRotors == allRotors
    {
      alphabet := alpha;
      this.numRotors := numRotors;
      this.pawls := pawls;
      this.allRotors := allRotors;
      plugboard := new Permutation("", alpha);
      slots := null;
    }

    /** The name map `insertRotors` builds from the available rotors. */
    method NameMap() returns (table: map<seq<char>, Rotor>)
      ensures table == NameTable(allRotors)
    {
      table := map[];
      var k := 0;
      while k < |allRotors|
        invariant 0 <= k <= |allRotors|
        invariant table == NameTable(allRotors[..k])
      {
        assert allRotors[..k + 1][..k] == allRotors[..k];
        table := table[Upper(allRotors[k].name) := allRotors[k]];
        k := k + 1;
      }
      assert allRotors[..k] == allRotors;
    }

    /** `insertRotors`: a fresh slot array of `numRotors` slots, each filled
        by a case-insensitive lookup of its name.  Too few names throw an
        index error; a surplus of names is reported after the slots are
        filled. */
    method InsertRotors(names: seq<seq<char>>) returns (r: Result<()>)
      requires Valid()
      modifies this
      ensures Valid() && plugboard == old(plugboard)
      ensures numRotors < 0 ==> r == Err(Crash) && slots == old(slots)
      ensures numRotors >= 0 ==> slots != null && fresh(slots) && slots.Length == numRotors
      ensures numRotors >= 0 ==> forall i :: 0 <= i < numRotors ==>
                slots[i] == if i < |names| then Lookup(allRotors, names[i]) else null
      ensures numRotors >= 0 ==>
                r == if |names| < numRotors then Err(Crash) else if |names| > numRotors then Err(Reported) else Ok(())
    {
      if numRotors < 0 {
        return Err(Crash);
      }
      var table := NameMap();
      var fill, filled := FillSlots(table, names);
      slots := fill;
      r := if filled < fill.Length then Err(Crash) else if fill.Length != |names| then Err(Reported) else Ok(());
    }

    /** The slot-filling loop of `insertRotors`: slot i gets the rotor named
        by name i, until the names run out (`filled` is then below the slot
        count, where the index error is thrown); later slots stay empty. */
    method FillSlots(table: map<seq<char>, Rotor>, names: seq<seq<char>>) returns (fill: array<Rotor?>, filled: nat)
      requires numRotors >= 0
      ensures fresh(fill) && fill.Length == numRotors
      ensures filled == if |names| < numRotors then |names| else numRotors
      ensures forall i :: 0 <= i < numRotors ==> fill[i] == if i < filled then Find(table, names[i]) else null
    {
      fill := new Rotor?[numRotors](_ => null);
      filled := 0;
      while filled < fill.Length && filled < |names|
        invariant 0 <= filled <= fill.Length && filled <= |names|
        invariant forall j :: 0 <= j < fill.Length ==> fill[j] == if j < filled then Find(table, names[j]) else null
      {
        fill[filled] := Find(table, names[filled]);
        filled := filled + 1;
      }
    }

    /** `setRotors`: the setting must have one symbol per slot after the
        reflector's; then slots 1 .. numRotors-1 are set in order from
        symbols 0 .. numRotors-2, stopping at the first empty slot (a null
        dereference), reflector or unknown symbol (reported).  Slots set
        before the failure keep their new settings; a rotor held by several
        slots keeps the symbol of the last of them. */
    method SetRotors(setting: seq<char>) returns (r: Result<()>)
      requires Valid()
      modifies Slotted()
      ensures |setting| != numRotors - 1 ==> r == Err(Reported)
      ensures |setting| == numRotors - 1 && slots == null ==> r == Err(Crash)
      ensures |setting| == numRotors - 1 && slots != null ==>
                r == SetResult(slots[..], SetStop(A(), slots[..], setting, 1))
      ensures forall x :: x in allRotors ==>
                if |setting| != numRotors - 1 || slots == null then x.setting == old(x.setting)
                else SetBy(A(), slots[..], setting, x, SetStop(A(), slots[..], setting, 1), old(x.setting), x.setting)
    {
      if |setting| != numRotors - 1 {
        return Err(Reported);
      }
      if slots == null {
        return Err(Crash);
      }
      ghost var rs := slots[..];
      var i := 1;
      while i < slots.Length
        invariant 1 <= i <= slots.Length
        invariant slots[..] == rs
        invariant SetStop(A(), rs, setting, 1) == SetStop(A(), rs, setting, i)
        invariant forall x :: x in allRotors ==> SetBy(A(), rs, setting, x, i, old(x.setting), x.setting)
      {
        var rotor := slots[i];
        if rotor == null {
          return Err(Crash);
        }
        if rotor.Reflecting() {
          return Err(Reported);
        }
        ghost var was := rotor.setting;
        var res := rotor.Set(setting[i - 1]);
        if res.Err? {
          assert SetStop(A(), rs, setting, i) == i;
          return res;
        }
        assert SetStop(A(), rs, setting, i) == SetStop(A(), rs, setting, i + 1);
        forall x | x in allRotors
          ensures SetBy(A(), rs, setting, x, i + 1, old(x.setting), x.setting)
        {
          SetByStep(A(), rs, setting, x, i, old(x.setting), if x == rotor then was else x.setting, x.setting);
        }
        i := i + 1;
      }
      return Ok(());
    }

    /** `setPlugboard`. */
    method SetPlugboard(p: Permutation)
      requires Valid() && p.alphabet == alphabet
      modifies this
      ensures Valid() && plugboard == p && slots == old(slots)
    {
      plugboard := p;
    }

    // -------------------------------------------------------------------
    // `convert(int)`, piece by piece
    // -------------------------------------------------------------------

    /** The count loop of both `convert`s: the number of rotating rotors in
        the slots.  A missing slot array or an empty slot throws a null
        dereference. */
    method CountRotors() returns (r: Result<nat>)
      requires Valid()
      ensures slots == null ==> r == Err(Crash)
      ensures slots != null ==> (r.Ok? <==> NoNull(slots[..]))
      ensures slots != null && NoNull(slots[..]) ==> r == Ok(RotatingIn(slots[..]))
      ensures r.Err? ==> r == Err(Crash)
    {
      if slots == null {
        return Err(Crash);
      }
      var count := 0;
      var i := 0;
      while i < slots.Length
        invariant 0 <= i <= slots.Length
        invariant NoNull(slots[..i])
        invariant count == RotatingIn(slots[..i])
      {
        var rotor := slots[i];
        if rotor == null {
          return Err(Crash);
        }
        assert slots[..i + 1][..i] == slots[..i];
        if rotor.Rotates() {
          count := count + 1;
        }
        i := i + 1;
      }
      assert slots[..i] == slots[..];
      return Ok(count);
    }

    /** The advance list: the last slot's rotor, then both rotors of each
        neighbouring pair whose right one is at a notch and both rotate,
        each rotor listed once.  Every test reads the settings before any
        rotor moves; `S` names them. */
    method AdvanceList(ghost S: seq<RotorState>) returns (adv: seq<Rotor>)
      requires Valid() && slots != null && slots.Length >= 1 && NoNull(slots[..])
      requires slots.Length == |S| && (forall k :: 0 <= k < |S| ==> slots[k] != null && slots[k].State() == S[k])
      ensures forall p, q :: 0 <= p < q < |adv| ==> adv[p] != adv[q]
      ensures forall x :: x in adv <==> x in Advancing(A(), S, slots[..])
      ensures forall x :: x in adv ==> x in slots[..]
    {
      var n := slots.Length;
      adv := [slots[n - 1]];
      var i := 0;
      while i < n - 1
        invariant 0 <= i <= n - 1
        invariant forall p, q :: 0 <= p < q < |adv| ==> adv[p] != adv[q]
        invariant forall x :: x in adv <==> x in AdvanceSet(A(), S, slots[..], i)
        invariant forall x :: x in adv ==> x in slots[..]
      {
        var curr := slots[i];
        var next := slots[i + 1];
        if next.AtNotch() && curr.Rotates() && next.Rotates() {
          assert Pushes(A(), S, i);
          if curr !in adv {
            adv := adv + [curr];
          }
          if next !in adv {
            adv := adv + [next];
          }
        } else {
          assert !Pushes(A(), S, i);
        }
        i := i + 1;
      }
    }

    /** Every rotor on the list advances once; the others keep their
        states. */
    method ApplyAdvance(adv: seq<Rotor>)
      requires Valid() && |A()| > 0
      requires forall p, q :: 0 <= p < q < |adv| ==> adv[p] != adv[q]
      requires forall x :: x in adv ==> x in allRotors
      modifies set x | x in adv
      ensures forall x :: x in allRotors ==>
                x.State() == if x in adv then Advanced(A(), old(x.State())) else old(x.State())
    {
      var k := 0;
      while k < |adv|
        invariant 0 <= k <= |adv|
        invariant forall x :: x in allRotors ==>
                    x.State() == if x in adv[..k] then Advanced(A(), old(x.State())) else old(x.State())
      {
        assert adv[k] !in adv[..k];
        assert adv[k] in allRotors;
        adv[k].Advance();
        assert adv[..k + 1] == adv[..k] + [adv[k]];
        k := k + 1;
      }
      assert adv[..k] == adv;
    }

    /** The forward loop: slot numRotors-1 down to the reflector's slot 0,
        over the slot states `S`. */
    method ForwardPass(ghost S: seq<RotorState>, a: int) returns (r: Result<int>)
      requires Valid() && slots != null && NoNull(slots[..])
      requires slots.Length == |S| && (forall k :: 0 <= k < |S| ==> slots[k] != null && slots[k].State() == S[k])
      ensures r == Fwd(A(), S, 0, |S|, a)
    {
      var c := a;
      var j := slots.Length;
      while j > 0
        invariant 0 <= j <= slots.Length
        invariant Fwd(A(), S, 0, |S|, a) == Fwd(A(), S, 0, j, c)
      {
        var v := slots[j - 1].ConvertForward(c);
        if v.Err? {
          return v;
        }
        c := v.value;
        j := j - 1;
      }
      return Ok(c);
    }

    /** The backward loop: slot 1 up to numRotors-1. */
    method BackwardPass(ghost S: seq<RotorState>, d: int) returns (r: Result<int>)
      requires Valid() && slots != null && NoNull(slots[..])
      requires slots.Length == |S| && (forall k :: 0 <= k < |S| ==> slots[k] != null && slots[k].State() == S[k])
      ensures r == Bwd(A(), S, 1, |S|, d)
    {
      var c := d;
      var j := 1;
      while j < slots.Length
        invariant 1 <= j <= slots.Length || slots.Length == 0
        invariant Bwd(A(), S, 1, |S|, d) == Bwd(A(), S, j, |S|, c)
      {
        var v := slots[j].ConvertBackward(c);
        if v.Err? {
          return v;
        }
        c := v.value;
        j := j + 1;
      }
      return Ok(c);
    }

    /** The advance of `convert(int)`: every rotor on the advance list
        moves once, which leaves the slots in the stepped states. */
    method StepRotors(ghost S: seq<RotorState>)
      requires Valid() && slots != null && slots.Length >= 1 && NoNull(slots[..]) && |A()| > 0
      requires slots.Length == |S| && (forall k :: 0 <= k < |S| ==> slots[k] != null && slots[k].State() == S[k])
      modifies Slotted()
      ensures slots[..] == old(slots[..])
      ensures forall k :: 0 <= k < |S| ==> slots[k].State() == Step(A(), S, slots[..])[k]
    {
      ghost var ids := slots[..];
      var adv := AdvanceList(S);
      assert forall x :: x in adv ==> x in Slotted() && x in allRotors by {
        forall x | x in adv ensures x in Slotted() && x in allRotors {
          var k :| 0 <= k < slots.Length && slots[k] == x;
        }
      }
      ApplyAdvance(adv);
      forall k | 0 <= k < |S|
        ensures slots[k].State() == Step(A(), S, ids)[k]
      {
        assert ids[k] == slots[k] && ids[k] in allRotors;
      }
    }

    /** The signal path of `convert(int)` through the slots in states `S`:
        plugboard (its answer `a` for `c`), forward loop, backward loop,
        plugboard. */
    method Passes(ghost S: seq<RotorState>, c: int, a: int) returns (r: Result<int>)
      requires Valid() && slots != null && NoNull(slots[..])
      requires slots.Length == |S| && (forall k :: 0 <= k < |S| ==> slots[k] != null && slots[k].State() == S[k])
      requires PermIdx(A(), plugboard.cycles, c) == Ok(a)
      ensures r == Signal(A(), plugboard.cycles, S, c)
    {
      var d := ForwardPass(S, a);
      if d.Err? {
        return d;
      }
      var b := BackwardPass(S, d.value);
      if b.Err? {
        return b;
      }
      r := plugboard.Permute(b.value);
    }

    /** `convert(int)`: what it returns and the rotor states it leaves are
        those of the value-level key press on the states it starts from. */
    method ConvertIndex(c: int) returns (r: Result<int>)
      requires Valid()
      modifies Slotted()
      ensures slots == null || !NoNull(slots[..]) ==> r == Err(Crash)
      ensures slots != null && NoNull(slots[..]) ==>
                old(NoNull(slots[..])) &&
                r == old(Keystroke(A(), plugboard.cycles, pawls, StatesOf(slots[..]), slots[..], c)).out &&
                StatesOf(slots[..]) == old(Keystroke(A(), plugboard.cycles, pawls, StatesOf(slots[..]), slots[..], c)).after
    {
      ghost var ids := if slots == null then [] else slots[..];
      ghost var live := slots != null && NoNull(ids);
      ghost var S := if live then StatesOf(ids) else [];
      ghost var K := if live then Keystroke(A(), plugboard.cycles, pawls, S, ids, c) else Outcome(Err(Crash), S);
      var count := CountRotors();
      if count.Err? {
        return Err(Crash);
      }
      assert live && slots[..] == ids;
      RotatingInStates(ids);
      r := Counted(S, count.value, c);
      assert StatesOf(slots[..]) == K.after;
    }

    /** `convert(int)` once the slots are counted (`count` rotating ones). */
    method Counted(ghost S: seq<RotorState>, count: int, c: int) returns (r: Result<int>)
      requires Valid() && slots != null && NoNull(slots[..]) && count == CountRotating(S)
      requires slots.Length == |S| && (forall k :: 0 <= k < |S| ==> slots[k] != null && slots[k].State() == S[k])
      modifies Slotted()
      ensures slots[..] == old(slots[..])
      ensures r == Keystroke(A(), plugboard.cycles, pawls, S, old(slots[..]), c).out
      ensures forall k :: 0 <= k < |S| ==> slots[k].State() == Keystroke(A(), plugboard.cycles, pawls, S, old(slots[..]), c).after[k]
    {
      if count != pawls {
        return Err(Reported);
      }
      var a := plugboard.Permute(c);
      if a.Err? {
        return a;
      }
      if slots.Length == 0 {
        return Err(Crash);
      }
      KeystrokeIsSignal(A(), plugboard.cycles, pawls, S, slots[..], c);
      StepRotors(S);
      r := Passes(Step(A(), S, slots[..]), c, a.value);
    }

    /** `convert(String)`: the pawl check, then the message, upper-cased,
        symbol by symbol; the output text and the rotor states it leaves
        are those of the value-level message loop on the states it starts
        from. */
    method ConvertString(msg: seq<char>) returns (r: Result<seq<char>>)
      requires Valid()
      modifies Slotted()
      ensures slots == null || !NoNull(slots[..]) ==> r == Err(Crash)
      ensures slots != null && NoNull(slots[..]) ==>
                old(NoNull(slots[..])) &&
                r == old(ConvertMessage(A(), plugboard.cycles, pawls, StatesOf(slots[..]), slots[..], msg)).text &&
                StatesOf(slots[..]) == old(ConvertMessage(A(), plugboard.cycles, pawls, StatesOf(slots[..]), slots[..], msg)).after
    {
      ghost var ids := if slots == null then [] else slots[..];
      ghost var live := slots != null && NoNull(ids);
      ghost var S := if live then StatesOf(ids) else [];
      ghost var R := if live then ConvertMessage(A(), plugboard.cycles, pawls, S, ids, msg) else Run(Err(Crash), S);
      var count := CountRotors();
      if count.Err? {
        r := Err(Crash);
      } else {
        assert live && slots[..] == ids && S == StatesOf(slots[..]);
        RotatingInStates(ids);
        if count.value != pawls {
          r := Err(Reported);
        } else {
          r := EncodeLoop(S, Upper(msg));
        }
      }
    }

    /** The loop of `convert(String)` over the upper-cased message `m`, from
        slot states `S`. */
    method EncodeLoop(ghost S: seq<RotorState>, m: seq<char>) returns (r: Result<seq<char>>)
      requires Valid() && slots != null && NoNull(slots[..]) && S == StatesOf(slots[..])
      modifies Slotted()
      ensures slots[..] == old(slots[..])
      ensures Run(r, StatesOf(slots[..])) == EncodeRun(A(), plugboard.cycles, pawls, S, slots[..], m)
    {
      ghost var ids := slots[..];
      var out: seq<char> := [];
      var i := 0;
      while i < |m|
        invariant 0 <= i <= |m|
        invariant slots[..] == ids
        invariant EncodeRun(A(), plugboard.cycles, pawls, S, ids, m[..i]) == Run(Ok(out), StatesOf(slots[..]))
      {
        assert m[..i + 1][..i] == m[..i];
        var next := ConvertSymbol(StatesOf(slots[..]), out, m[i]);
        if next.Err? {
          FailureEndsRun(A(), plugboard.cycles, pawls, S, ids, m, i + 1);
          return next;
        }
        out := next.value;
        i := i + 1;
      }
      assert m[..i] == m;
      r := Ok(out);
    }

    /** One pass of the message loop: a symbol outside the alphabet is
        copied; otherwise `convert(int)` encodes it, and a reported error
        copies it too (after the rotors have stepped); a failure of any
        other kind ends the conversion.  `text` is the output so far and
        `T` the slot states. */
    method ConvertSymbol(ghost T: seq<RotorState>, text: seq<char>, ch: char) returns (r: Result<seq<char>>)
      requires Valid() && slots != null && NoNull(slots[..]) && T == StatesOf(slots[..])
      modifies Slotted()
      ensures slots[..] == old(slots[..])
      ensures Run(r, StatesOf(slots[..])) == EncodeChar(A(), plugboard.cycles, pawls, old(slots[..]), text, T, ch)
    {
      ghost var ids := slots[..];
      ghost var E := EncodeChar(A(), plugboard.cycles, pawls, ids, text, T, ch);
      var index := alphabet.ToInt(ch);
      if index.Err? {
        r := Ok(text + [ch]);
      } else {
        ghost var K := Keystroke(A(), plugboard.cycles, pawls, T, ids, index.value);
        assert T == StatesOf(slots[..]);
        var o := ConvertIndex(index.value);
        assert o == K.out && StatesOf(slots[..]) == K.after;
        if o.Ok? {
          r := Ok(text + [alphabet.ToChar(o.value).value]);
        } else if o.fault == Reported {
          r := Ok(text + [ch]);
        } else {
          r := Err(Crash);
        }
      }
    }
  }
}
