/** The driver's session over the input lines (Main.java, `setUp` and
    `process`): a line starting with '*' sets the machine up, every other
    line is a message, converted and printed in blocks of five. */
module Driver {
  import opened Outcomes
  import opened Text
  import opened Permutations
  import opened Rotors
  import opened Signals
  import opened Machines
  import opened SetupLines
  import opened Grouping
  import opened Configs

  /** What `setUp` leaves.  A negative slot count fails when the name
      array is allocated, before anything changes.  Otherwise the plugboard
      is the line's, the slots hold the named rotors, and the rotors are set
      as `setRotors` sets them (nothing is set on a setting of the wrong
      length). */
  twostate predicate SetUpDone(M: Machine, settings: seq<char>, new r: Result<()>)
    reads M, M.slots, M.plugboard, set x | x in M.allRotors
  {
    if M.numRotors < 0 then
      r == Err(Crash) && M.slots == old(M.slots) && M.plugboard == old(M.plugboard) &&
      forall x :: x in M.allRotors ==> x.setting == old(x.setting)
    else
      var s := SetupOf(settings, M.numRotors);
      fresh(M.plugboard) && M.plugboard.cycles == s.plugboard &&
      M.slots != null && fresh(M.slots) && M.slots.Length == M.numRotors &&
      (forall i :: 0 <= i < M.numRotors ==> M.slots[i] == Lookup(M.allRotors, s.names[i])) &&
      r == (if |s.setting| != M.numRotors - 1 then Err(Reported)
            else SetResult(M.slots[..], SetStop(M.A(), M.slots[..], s.setting, 1))) &&
      forall x :: x in M.allRotors ==>
        if |s.setting| != M.numRotors - 1 then x.setting == old(x.setting)
        else SetBy(M.A(), M.slots[..], s.setting, x, SetStop(M.A(), M.slots[..], s.setting, 1), old(x.setting), x.setting)
  }

  /** `setUp`: split the setting line, install the plugboard, insert the
      named rotors, then set them. */
  method SetUp(M: Machine, settings: seq<char>) returns (r: Result<()>)
    requires M.Valid()
    modifies M, set x | x in M.allRotors
    ensures M.Valid()
    ensures SetUpDone(M, settings, r)
  {
    var split := SplitSetup(settings, M.numRotors);
    if split.Err? {
      return Err(Crash);
    }
    var s := split.value;
    var plug := new Permutation(s.plugboard, M.alphabet);
    M.SetPlugboard(plug);
    var inserted := M.InsertRotors(s.names);
    assert inserted.Ok?;
    r := M.SetRotors(s.setting);
  }

  /** A setting line: "* " and the settings; a line too short to hold "* "
      throws in `substring`. */
  method SettingLine(M: Machine, str: seq<char>) returns (r: Result<()>)
    requires M.Valid() && Starred(str)
    modifies M, set x | x in M.allRotors
    ensures M.Valid()
    ensures |str| < 2 ==> r == Err(Crash)
    ensures |str| >= 2 ==> SetUpDone(M, str[2..], r)
  {
    if |str| < 2 {
      return Err(Crash);
    }
    r := SetUp(M, str[2..]);
  }

  /** What converting and printing a message line leaves: the line printed
      (none after a failure) is the converted message in blocks of five, and
      the rotors end in the states the message conversion leaves.  The
      slots and the plugboard stay, and so does every rotor in no slot. */
  twostate predicate MessageDone(M: Machine, str: seq<char>, new printed: seq<seq<char>>, new r: Result<()>)
    requires M.Valid()
    reads M, M.slots, M.alphabet.charList, set x | x in M.allRotors, set x | x in M.allRotors :: x.perm
  {
    M.slots == old(M.slots) && M.plugboard == old(M.plugboard) &&
    (M.slots != null ==> M.slots[..] == old(M.slots[..])) &&
    (forall x :: x in M.allRotors && (M.slots == null || x !in M.slots[..]) ==> x.setting == old(x.setting)) &&
    if M.slots == null || !NoNull(M.slots[..]) then r == Err(Crash) && printed == []
    else
      var run := old(ConvertMessage(M.A(), M.plugboard.cycles, M.pawls, StatesOf(M.slots[..]), M.slots[..], str));
      (r.Ok? <==> run.text.Ok?) &&
      (r.Ok? ==> printed == [Blocks(Without(run.text.value, ' '))]) &&
      (r.Err? ==> r.fault == run.text.fault && printed == []) &&
      StatesOf(M.slots[..]) == run.after
  }

  /** A message line: converted, then grouped for printing. */
  method MessageLine(M: Machine, str: seq<char>) returns (line: seq<char>, r: Result<()>)
    requires M.Valid()
    modifies set x | x in M.allRotors
    ensures M.Valid()
    ensures r.Ok? ==> line == Blocks(Without(line, ' '))
    ensures MessageDone(M, str, if r.Ok? then [line] else [], r)
  {
    var changed := M.ConvertString(str);
    if changed.Err? {
      return [], Err(changed.fault);
    }
    line := GroupInFives(changed.value);
    BlocksWithoutSpaces(Without(changed.value, ' '));
    r := Ok(());
  }

  /** A line that sets the machine up. */
  predicate Starred(line: seq<char>)
  {
    |line| > 0 && line[0] == '*'
  }

  /** The number of message lines. */
  function MessageCount(lines: seq<seq<char>>): (n: nat)
    ensures n <= |lines|
  {
    if lines == [] then 0
    else MessageCount(lines[..|lines| - 1]) + (if Starred(lines[|lines| - 1]) then 0 else 1)
  }

  /** One pass of `process`'s loop: the new line count and what is
      printed for the line.  A setting line sets the machine up and sets
      the count to 1; a message before any setting line is reported with
      nothing changed; any other message is converted and printed. */
  method ProcessLine(M: Machine, str: seq<char>, count: int) returns (count': int, out: seq<seq<char>>, r: Result<()>)
    requires M.Valid() && count >= 0
    modifies M, set x | x in M.allRotors
    ensures M.Valid()
    ensures Starred(str) ==> count' == 1 && out == []
    ensures Starred(str) && |str| < 2 ==> r == Err(Crash)
    ensures Starred(str) && |str| >= 2 ==> SetUpDone(M, str[2..], r)
    ensures !Starred(str) && count == 0 ==>
              r == Err(Reported) && out == [] && unchanged(M) && forall x :: x in M.allRotors ==> unchanged(x)
    ensures !Starred(str) && count > 0 ==> count' == count + 1 && MessageDone(M, str, out, r)
    ensures r.Ok? ==> |out| == (if Starred(str) then 0 else 1)
    ensures forall k :: 0 <= k < |out| ==> out[k] == Blocks(Without(out[k], ' '))
  {
    out := [];
    count' := count;
    if |str| > 0 && str[0] == '*' {
      r := SettingLine(M, str);
      count' := 1;
    } else if count == 0 {
      r := Err(Reported);
    } else {
      count' := count + 1;
      var line;
      line, r := MessageLine(M, str);
      if r.Ok? {
        out := [line];
      }
    }
  }

  /** `process`, returning the printed lines.  A message before the first
      setting line is reported; a setting line too short to hold "* "
      throws.  A run that ends normally began with a setting line and
      printed one line per message, each in blocks of five. */
  method Process(M: Machine, lines: seq<seq<char>>) returns (printed: seq<seq<char>>, r: Result<()>)
    requires M.Valid()
    modifies M, set x | x in M.allRotors
    ensures lines != [] && !Starred(lines[0]) ==> r == Err(Reported) && printed == []
    ensures r.Ok? ==> lines == [] || Starred(lines[0])
    ensures r.Ok? ==> |printed| == MessageCount(lines)
    ensures forall k :: 0 <= k < |printed| ==> printed[k] == Blocks(Without(printed[k], ' '))
  {
    printed := [];
    var count := 0;
    var i := 0;
    while i < |lines|
      invariant 0 <= i <= |lines| && M.Valid()
      invariant count >= 0 && (count == 0 <==> i == 0)
      invariant i > 0 ==> Starred(lines[0])
      invariant |printed| == MessageCount(lines[..i])
      invariant i == 0 ==> printed == []
      invariant forall k :: 0 <= k < |printed| ==> printed[k] == Blocks(Without(printed[k], ' '))
    {
      assert lines[..i + 1][..i] == lines[..i];
      var out, res;
      count, out, res := ProcessLine(M, lines[i], count);
      if res.Err? {
        return printed, res;
      }
      printed := printed + out;
      i := i + 1;
    }
    assert lines[..i] == lines;
    r := Ok(());
  }

  /** `process` as a whole: the machine is read from the configuration
      first, and a bad configuration stops the run before any input line
      is read. */
  method Session(alphabet: seq<char>, numRotors: Token, numPawls: Token, config: seq<seq<char>>,
                 input: seq<seq<char>>) returns (printed: seq<seq<char>>, r: Result<()>)
    ensures ConfigOf(alphabet, numRotors, numPawls, config).Err? ==>
              printed == [] && r == Err(ConfigOf(alphabet, numRotors, numPawls, config).fault)
    ensures input != [] && !Starred(input[0]) ==> r.Err? && printed == []
    ensures r.Ok? ==> |printed| == MessageCount(input)
    ensures forall k :: 0 <= k < |printed| ==> printed[k] == Blocks(Without(printed[k], ' '))
  {
    var cfg := ReadConfig(alphabet, numRotors, numPawls, config);
    if cfg.Err? {
      return [], Err(cfg.fault);
    }
    var m := Build(cfg.value);
    printed, r := Process(m, input);
  }
}
