/** The setting line of the driver (Main.java, `setUp`): after the leading
    "* ", the rotor names, one per slot, then the setting symbols, then,
    optionally, the plugboard's cycles. */
module SetupLines {
  import opened Outcomes
  import opened Text

  /** What a setting line asks for. */
  datatype Setup = Setup(names: seq<seq<char>>, setting: seq<char>, plugboard: seq<char>)

  /** One pass of the name loop: the text before the first space and the
      text after it.  With no space left, the name is the whole remaining
      text, and the text is not consumed. */
  function Cut(s: seq<char>): (r: (seq<char>, seq<char>))
    ensures ' ' in s ==> r.0 + [' '] + r.1 == s && ' ' !in r.0
    ensures ' ' !in s ==> r == (s, s)
  {
    var k := IndexOf(s, ' ');
    if k == -1 then (s, s) else (s[..k], s[k + 1..])
  }

  /** The first n names and the text that follows them. */
  function TakeNames(s: seq<char>, n: nat): (r: (seq<seq<char>>, seq<char>))
    ensures |r.0| == n
  {
    if n == 0 then ([], s)
    else
      var t := TakeNames(Cut(s).1, n - 1);
      ([Cut(s).0] + t.0, t.1)
  }

  /** The whole split: after the names, the setting is the text up to the
      next space and the plugboard the text after it, or empty. */
  function SetupOf(s: seq<char>, n: nat): (r: Setup)
    ensures |r.names| == n
  {
    Complete(TakeNames(s, n).0, TakeNames(s, n).1)
  }

  /** The setting and the plugboard from the text after the names. */
  function Complete(names: seq<seq<char>>, rest: seq<char>): (r: Setup)
    ensures r.names == names
    ensures ' ' !in rest ==> r.setting == rest && r.plugboard == []
    ensures ' ' in rest ==> r.setting + [' '] + r.plugboard == rest && ' ' !in r.setting
  {
    var k := IndexOf(rest, ' ');
    if k == -1 then Setup(names, rest, []) else Setup(names, rest[..k], rest[k + 1..])
  }

  /** The splitting part of `setUp` (the slots' name array is allocated
      first, so a negative slot count fails there). */
  method SplitSetup(settings: seq<char>, numRotors: int) returns (r: Result<Setup>)
    ensures numRotors < 0 ==> r == Err(Crash)
    ensures numRotors >= 0 ==> r == Ok(SetupOf(settings, numRotors))
  {
    if numRotors < 0 {
      return Err(Crash);
    }
    var names, rest := NameLoop(settings, numRotors);
    SetupOfParts(settings, numRotors, names, rest);
    r := Ok(Complete(names, rest));
  }

  /** The name loop of `setUp`: one name per slot, consuming the text up to
      and including each space while there is one. */
  method NameLoop(settings: seq<char>, n: nat) returns (names: seq<seq<char>>, rest: seq<char>)
    ensures TakeNames(settings, n) == (names, rest)
  {
    names := [];
    rest := settings;
    var i := 0;
    while i < n
      invariant 0 <= i <= n
      invariant TakeNames(settings, n).0 == names + TakeNames(rest, n - i).0
      invariant TakeNames(settings, n).1 == TakeNames(rest, n - i).1
    {
      TakeStep(rest, n - i);
      var name, next := NextName(rest);
      Regroup(names, [name], TakeNames(next, n - i - 1).0);
      names := names + [name];
      rest := next;
      i := i + 1;
    }
    assert names + TakeNames(rest, 0).0 == names;
  }

  /** One pass of the name loop: the text before the first space and the
      text after it, or the whole text twice when it has no space. */
  method NextName(rest: seq<char>) returns (name: seq<char>, next: seq<char>)
    ensures (name, next) == Cut(rest)
    ensures ' ' in rest ==> name + [' '] + next == rest && ' ' !in name
  {
    var elem := IndexOf(rest, ' ');
    if elem != -1 {
      name, next := rest[..elem], rest[elem + 1..];
      assert rest == rest[..elem] + [' '] + rest[elem + 1..];
    } else {
      name, next := rest, rest;
    }
  }

  /** One name taken off the front. */
  lemma TakeStep(s: seq<char>, n: nat)
    requires n > 0
    ensures TakeNames(s, n).0 == [Cut(s).0] + TakeNames(Cut(s).1, n - 1).0
    ensures TakeNames(s, n).1 == TakeNames(Cut(s).1, n - 1).1
  {
  }

  lemma Regroup(a: seq<seq<char>>, b: seq<seq<char>>, c: seq<seq<char>>)
    ensures a + (b + c) == a + b + c
  {
  }

  lemma SetupOfParts(s: seq<char>, n: nat, names: seq<seq<char>>, rest: seq<char>)
    requires TakeNames(s, n) == (names, rest)
    ensures SetupOf(s, n) == Complete(names, rest)
  {
  }

  /** Names each followed by one space. */
  function Spaced(names: seq<seq<char>>): seq<char>
  {
    if names == [] then [] else names[0] + [' '] + Spaced(names[1..])
  }

  predicate SpaceFree(s: seq<char>)
  {
    ' ' !in s
  }

  /** Space-separated names are taken back one by one. */
  lemma {:induction false} TakeSpaced(names: seq<seq<char>>, tail: seq<char>)
    requires forall j :: 0 <= j < |names| ==> SpaceFree(names[j])
    ensures TakeNames(Spaced(names) + tail, |names|) == (names, tail)
  {
    if names != [] {
      var rest := Spaced(names[1..]) + tail;
      var s := names[0] + [' '] + rest;
      assert Spaced(names) + tail == s;
      SplitAt(s, names[0], ' ', rest);
      assert Cut(s) == (names[0], rest);
      TakeSpaced(names[1..], tail);
      assert TakeNames(s, |names|) == ([names[0]] + names[1..], tail);
      assert [names[0]] + names[1..] == names;
    } else {
      assert Spaced(names) + tail == tail;
    }
  }

  /** After well-formed names, the rest of the line is split at its first
      space. */
  lemma SetupAfterNames(names: seq<seq<char>>, rest: seq<char>)
    requires forall j :: 0 <= j < |names| ==> SpaceFree(names[j])
    ensures SetupOf(Spaced(names) + rest, |names|) == Complete(names, rest)
  {
    TakeSpaced(names, rest);
  }

  /** A well-formed setting line: the names, then the setting; the
      plugboard is empty. */
  lemma SetupWithoutPlugboard(names: seq<seq<char>>, setting: seq<char>)
    requires forall j :: 0 <= j < |names| ==> SpaceFree(names[j])
    requires SpaceFree(setting)
    ensures SetupOf(Spaced(names) + setting, |names|) == Setup(names, setting, [])
  {
    SetupAfterNames(names, setting);
  }

  /** ... and with the plugboard's cycles after one more space. */
  lemma SetupWithPlugboard(names: seq<seq<char>>, setting: seq<char>, plug: seq<char>)
    requires forall j :: 0 <= j < |names| ==> SpaceFree(names[j])
    requires SpaceFree(setting)
    ensures SetupOf(Spaced(names) + (setting + [' '] + plug), |names|) == Setup(names, setting, plug)
  {
    var rest := setting + [' '] + plug;
    SplitAt(rest, setting, ' ', plug);
    SetupAfterNames(names, rest);
  }

  /** A line with fewer names than slots: once the spaces run out, every
      remaining slot gets the last word, which is also taken as the
      setting. */
  lemma ShortSetupRepeatsLastWord()
    ensures SetupOf("B IV", 3) == Setup(["B", "IV", "IV"], "IV", [])
  {
    var s := "B IV";
    assert s[0] == 'B' && s[1] == ' ';
    assert IndexOf(s, ' ') == 1;
    assert s[..1] == "B" && s[2..] == "IV";
    assert Cut("B IV") == ("B", "IV");
    assert Cut("IV") == ("IV", "IV");
  }
}
