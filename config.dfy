/** The configuration reader of the driver (Main.java, `readConfig` and
    `readRotor`), over the configuration's lines: the alphabet line, the
    two counts, then one line per rotor, where a line whose second symbol
    is a space continues the previous rotor's cycles. */
module Configs {
  import opened Outcomes
  import opened Text
  import opened Alphabets
  import opened Permutations
  import opened Rotors
  import opened Machines

  /** A rotor as a descriptor line gives it. */
  datatype RotorSpec = RotorSpec(name: seq<char>, kind: Kind, cycles: seq<char>)

  /** What the reader builds the machine from. */
  datatype Config = Config(alphabet: seq<char>, numRotors: int, numPawls: int, rotors: seq<RotorSpec>)

  /** An integer token of the configuration, or its absence (`hasNextInt`
      false). */
  datatype Token = Int(value: int) | Missing

  // ---------------------------------------------------------------------
  // One descriptor (`readRotor`)
  // ---------------------------------------------------------------------

  /** The three fields of a descriptor, as text. */
  datatype Fields = Fields(name: seq<char>, ty: seq<char>, cycles: seq<char>)

  /** The slicing of `readRotor`, on the text after the line's first
      symbol: the name up to the first space, the type token up to the next
      space, the cycles from the first '(' after the name.  A missing space
      or '(' throws an index error. */
  function FieldsOf(text: seq<char>): (r: Result<Fields>)
    ensures r.Ok? ==> ' ' !in r.value.name && ' ' !in r.value.ty
    ensures r.Ok? ==> |r.value.cycles| > 0 && r.value.cycles[0] == '('
    ensures r.Err? ==> r.fault == Crash
  {
    var e := IndexOf(text, ' ');
    if e == -1 then Err(Crash)
    else
      var rest := text[e + 1..];
      var f := IndexOf(rest, ' ');
      var g := IndexOf(rest, '(');
      if f == -1 || g == -1 then Err(Crash)
      else Ok(Fields(text[..e], rest[..f], rest[g..]))
  }

  /** The type token's first letter selects the kind: 'M' with the notches
      after it (a bare "M" is reported), 'N' fixed, 'R' a reflector, any
      other letter reported; an empty token throws an index error. */
  function KindOf(ty: seq<char>): (r: Result<Kind>)
    ensures r.Ok? ==> |ty| > 0 && ty[0] == TypeToken(r.value)[0]
    ensures r.Ok? && r.value.Moving? ==> ty == TypeToken(r.value)
    ensures r.Err? <==> ty == [] || ty == ['M'] || ty[0] !in ['M', 'N', 'R']
  {
    if ty == [] then Err(Crash)
    else if ty[0] == 'M' then
      if |ty| < 2 then Err(Reported) else Ok(Moving(ty[1..]))
    else if ty[0] == 'N' then Ok(Fixed)
    else if ty[0] == 'R' then Ok(Reflector)
    else Err(Reported)
  }

  /** `readRotor`: the fields, then the kind. */
  function ParseRotor(text: seq<char>): Result<RotorSpec>
  {
    var d :- FieldsOf(text);
    var k :- KindOf(d.ty);
    Ok(RotorSpec(d.name, k, d.cycles))
  }

  /** The type token of a rotor: 'M' and its notches, 'N', or 'R'. */
  function TypeToken(k: Kind): seq<char>
  {
    match k
    case Moving(notches) => ['M'] + notches
    case Fixed => ['N']
    case Reflector => ['R']
  }

  /** The descriptor text of a rotor: name, type token, cycles. */
  function Describe(spec: RotorSpec): seq<char>
  {
    spec.name + [' '] + TypeToken(spec.kind) + [' '] + spec.cycles
  }

  /** A rotor that a descriptor can express: a name and notches without
      spaces, notches without '(' and not empty, cycles that open with '('. */
  predicate Describable(spec: RotorSpec)
  {
    ' ' !in spec.name && |spec.cycles| > 0 && spec.cycles[0] == '(' &&
    (spec.kind.Moving? ==> |spec.kind.notches| > 0 && ' ' !in spec.kind.notches && '(' !in spec.kind.notches)
  }

  /** The fields are read back from a descriptor with a space-free name and
      type token, a type token without '(', and cycles opening with '('. */
  lemma FieldsOfDescriptor(s: seq<char>, name: seq<char>, ty: seq<char>, cycles: seq<char>)
    requires ' ' !in name && ' ' !in ty && '(' !in ty && |cycles| > 0 && cycles[0] == '('
    requires s == name + [' '] + ty + [' '] + cycles
    ensures FieldsOf(s) == Ok(Fields(name, ty, cycles))
  {
    var rest := ty + [' '] + cycles;
    FirstField(s, name, rest);
    SecondField(rest, ty, cycles);
    FieldsOfParts(s, rest, |name|, |ty|, |ty| + 1);
  }

  lemma FirstField(s: seq<char>, name: seq<char>, rest: seq<char>)
    requires ' ' !in name && s == name + [' '] + rest
    ensures IndexOf(s, ' ') == |name| && s[..|name|] == name && s[|name| + 1..] == rest
  {
    SplitAt(s, name, ' ', rest);
  }

  lemma SecondField(rest: seq<char>, ty: seq<char>, cycles: seq<char>)
    requires ' ' !in ty && '(' !in ty && |cycles| > 0 && cycles[0] == '(' && rest == ty + [' '] + cycles
    ensures IndexOf(rest, ' ') == |ty| && rest[..|ty|] == ty
    ensures IndexOf(rest, '(') == |ty| + 1 && rest[|ty| + 1..] == cycles
  {
    assert IndexOf(rest, ' ') == |ty| && rest[..|ty|] == ty by {
      SplitAt(rest, ty, ' ', cycles);
    }
    assert rest == (ty + [' ']) + ['('] + cycles[1..];
    SplitAt(rest, ty + [' '], '(', cycles[1..]);
  }

  /** The fields, once the three searches are known. */
  lemma FieldsOfParts(text: seq<char>, rest: seq<char>, e: nat, f: nat, g: nat)
    requires e < |text| && IndexOf(text, ' ') == e && rest == text[e + 1..]
    requires f < |rest| && g < |rest| && IndexOf(rest, ' ') == f && IndexOf(rest, '(') == g
    ensures FieldsOf(text) == Ok(Fields(text[..e], rest[..f], rest[g..]))
  {
  }

  /** Reading a descriptor gives its rotor back. */
  lemma ParseDescribe(spec: RotorSpec)
    requires Describable(spec)
    ensures ParseRotor(Describe(spec)) == Ok(spec)
  {
    var ty := TypeToken(spec.kind);
    FieldsOfDescriptor(Describe(spec), spec.name, ty, spec.cycles);
    ParseOfFields(Describe(spec), Fields(spec.name, ty, spec.cycles));
    KindOfToken(spec.kind);
  }

  /** The kind is read back from its type token. */
  lemma KindOfToken(k: Kind)
    requires k.Moving? ==> |k.notches| > 0
    ensures KindOf(TypeToken(k)) == Ok(k)
  {
    if k.Moving? {
      assert TypeToken(k)[1..] == k.notches;
    }
  }

  lemma ParseOfFields(s: seq<char>, f: Fields)
    requires FieldsOf(s) == Ok(f)
    ensures ParseRotor(s) == if KindOf(f.ty).Ok? then Ok(RotorSpec(f.name, KindOf(f.ty).value, f.cycles)) else Err(KindOf(f.ty).fault)
  {
  }

  /** A type token opening with a letter other than M, N and R, or a bare
      "M", is reported. */
  lemma ParseRejectsType(name: seq<char>, ty: seq<char>, cycles: seq<char>)
    requires ' ' !in name && ' ' !in ty && '(' !in ty && |ty| > 0
    requires |cycles| > 0 && cycles[0] == '('
    requires ty == ['M'] || ty[0] !in ['M', 'N', 'R']
    ensures ParseRotor(name + [' '] + ty + [' '] + cycles) == Err(Reported)
  {
    FieldsOfDescriptor(name + [' '] + ty + [' '] + cycles, name, ty, cycles);
    ParseOfFields(name + [' '] + ty + [' '] + cycles, Fields(name, ty, cycles));
    KindOfRejects(ty);
  }

  lemma KindOfRejects(ty: seq<char>)
    requires |ty| > 0 && (ty == ['M'] || ty[0] !in ['M', 'N', 'R'])
    ensures KindOf(ty) == Err(Reported)
  {
  }

  // ---------------------------------------------------------------------
  // The rotor lines (`readConfig`'s loop)
  // ---------------------------------------------------------------------

  predicate NameIn(name: seq<char>, rs: seq<RotorSpec>)
  {
    exists k :: 0 <= k < |rs| && rs[k].name == name
  }

  predicate DistinctNames(rs: seq<RotorSpec>)
  {
    forall p, q :: 0 <= p < q < |rs| ==> rs[p].name != rs[q].name
  }

  /** A line whose second symbol is a space continues a rotor's cycles. */
  predicate Continues(line: seq<char>)
  {
    |line| >= 2 && line[1] == ' '
  }

  /** One line read into the rotor list: a short line throws; a
      continuation extends the last rotor's cycles with the whole line
      (with no rotor yet, an index error); otherwise the descriptor after
      the first symbol becomes a new rotor, unless its name is taken. */
  function AddLine(rs: seq<RotorSpec>, line: seq<char>): Result<seq<RotorSpec>>
  {
    if |line| < 2 then Err(Crash)
    else if line[1] == ' ' then
      if rs == [] then Err(Crash)
      else
        var last := rs[|rs| - 1];
        Ok(rs[..|rs| - 1] + [last.(cycles := last.cycles + line)])
    else
      var spec :- ParseRotor(line[1..]);
      if NameIn(spec.name, rs) then Err(Reported) else Ok(rs + [spec])
  }

  /** The rotor list after all the lines, stopping at the first failure. */
  function RotorLines(lines: seq<seq<char>>): Result<seq<RotorSpec>>
  {
    if lines == [] then Ok([])
    else
      var rs :- RotorLines(lines[..|lines| - 1]);
      AddLine(rs, lines[|lines| - 1])
  }

  /** The name a line introduces: none for a continuation, a short line or
      a descriptor that does not parse. */
  function LineName(line: seq<char>): seq<seq<char>>
  {
    if |line| < 2 || line[1] == ' ' then []
    else match ParseRotor(line[1..])
      case Ok(spec) => [spec.name]
      case Err(_) => []
  }

  /** The names of the descriptor lines, in order: an independent account
      of which rotors the reader creates. */
  function DescriptorNames(lines: seq<seq<char>>): seq<seq<char>>
  {
    if lines == [] then [] else DescriptorNames(lines[..|lines| - 1]) + LineName(lines[|lines| - 1])
  }

  function NamesOf(rs: seq<RotorSpec>): (ns: seq<seq<char>>)
    ensures |ns| == |rs| && forall k :: 0 <= k < |rs| ==> ns[k] == rs[k].name
  {
    if rs == [] then [] else NamesOf(rs[..|rs| - 1]) + [rs[|rs| - 1].name]
  }

  /** Reading one more line. */
  lemma RotorLinesSnoc(lines: seq<seq<char>>, line: seq<char>)
    ensures RotorLines(lines + [line]) ==
              if RotorLines(lines).Err? then RotorLines(lines) else AddLine(RotorLines(lines).value, line)
  {
    assert (lines + [line])[..|lines|] == lines;
  }

  /** One line adds its name, if any, and keeps the names distinct. */
  lemma AddLineNames(rs: seq<RotorSpec>, line: seq<char>)
    requires AddLine(rs, line).Ok? && DistinctNames(rs)
    ensures NamesOf(AddLine(rs, line).value) == NamesOf(rs) + LineName(line)
    ensures DistinctNames(AddLine(rs, line).value)
  {
    var rs' := AddLine(rs, line).value;
    if line[1] == ' ' {
      assert forall k :: 0 <= k < |rs| ==> rs'[k].name == rs[k].name;
      assert NamesOf(rs') == NamesOf(rs);
    } else {
      var spec := ParseRotor(line[1..]).value;
      assert rs' == rs + [spec] && !NameIn(spec.name, rs);
      assert NamesOf(rs + [spec]) == NamesOf(rs) + [spec.name];
      forall p, q | 0 <= p < q < |rs'| ensures rs'[p].name != rs'[q].name {
        if q == |rs| {
          assert rs'[p] == rs[p];
        }
      }
    }
  }

  /** A successful read creates one rotor per descriptor line, in order,
      under pairwise distinct names. */
  lemma {:induction false} RotorLinesNames(lines: seq<seq<char>>)
    requires RotorLines(lines).Ok?
    ensures NamesOf(RotorLines(lines).value) == DescriptorNames(lines)
    ensures DistinctNames(RotorLines(lines).value)
  {
    if lines != [] {
      var prefix, line := lines[..|lines| - 1], lines[|lines| - 1];
      RotorLinesSnoc(prefix, line);
      assert prefix + [line] == lines;
      RotorLinesNames(prefix);
      AddLineNames(RotorLines(prefix).value, line);
    }
  }

  /** A descriptor naming a rotor already read is reported. */
  lemma AddLineTaken(rs: seq<RotorSpec>, line: seq<char>)
    requires |line| >= 2 && line[1] != ' ' && ParseRotor(line[1..]).Ok?
    requires ParseRotor(line[1..]).value.name in NamesOf(rs)
    ensures AddLine(rs, line) == Err(Reported)
  {
    var k :| 0 <= k < |rs| && NamesOf(rs)[k] == ParseRotor(line[1..]).value.name;
  }

  /** Two descriptor lines naming the same rotor: the read fails, with a
      report unless an earlier line already threw. */
  lemma DuplicateReported(lines: seq<seq<char>>, line: seq<char>)
    requires RotorLines(lines).Ok? && |line| >= 2 && !Continues(line)
    requires ParseRotor(line[1..]).Ok? && ParseRotor(line[1..]).value.name in DescriptorNames(lines)
    ensures RotorLines(lines + [line]) == Err(Reported)
  {
    RotorLinesNames(lines);
    RotorLinesSnoc(lines, line);
    AddLineTaken(RotorLines(lines).value, line);
  }

  /** A continuation line extends the last rotor's cycles with the line and
      changes nothing else. */
  lemma ContinuationExtends(lines: seq<seq<char>>, line: seq<char>)
    requires RotorLines(lines).Ok? && RotorLines(lines).value != [] && Continues(line)
    ensures RotorLines(lines + [line]).Ok?
    ensures var rs, rs' := RotorLines(lines).value, RotorLines(lines + [line]).value;
      |rs'| == |rs| &&
      (forall k :: 0 <= k < |rs| - 1 ==> rs'[k] == rs[k]) &&
      rs'[|rs| - 1] == rs[|rs| - 1].(cycles := rs[|rs| - 1].cycles + line)
  {
    RotorLinesSnoc(lines, line);
  }

  /** Once a line has failed, the read has failed with that fault. */
  lemma {:induction false} FailureStays(lines: seq<seq<char>>, j: nat)
    requires j <= |lines| && RotorLines(lines[..j]).Err?
    ensures RotorLines(lines) == RotorLines(lines[..j])
  {
    if j < |lines| {
      var prefix := lines[..|lines| - 1];
      assert prefix[..j] == lines[..j];
      FailureStays(prefix, j);
    } else {
      assert lines[..j] == lines;
    }
  }

  /** `readConfig` on the configuration's contents: the alphabet line must
      be non-empty and free of spaces, both counts present, and there must
      be more slots than pawls; then the rotor lines are read. */
  function ConfigOf(alphabet: seq<char>, numRotors: Token, numPawls: Token, lines: seq<seq<char>>): (r: Result<Config>)
    ensures r.Ok? ==> |r.value.alphabet| > 0 && ' ' !in r.value.alphabet
    ensures r.Ok? ==> r.value.numRotors > r.value.numPawls
    ensures r.Ok? ==> DistinctNames(r.value.rotors) && NamesOf(r.value.rotors) == DescriptorNames(lines)
  {
    if alphabet == [] || ' ' in alphabet || numRotors.Missing? || numPawls.Missing? then Err(Reported)
    else if numRotors.value <= numPawls.value then Err(Reported)
    else
      var rs :- RotorLines(lines);
      RotorLinesNames(lines);
      Ok(Config(alphabet, numRotors.value, numPawls.value, rs))
  }

  /** The reader as the driver runs it, line by line, checking each new
      name against the rotors read so far. */
  method ReadConfig(alphabet: seq<char>, numRotors: Token, numPawls: Token, lines: seq<seq<char>>) returns (r: Result<Config>)
    ensures r == ConfigOf(alphabet, numRotors, numPawls, lines)
  {
    if |alphabet| == 0 || IndexOf(alphabet, ' ') != -1 {
      return Err(Reported);
    }
    if numRotors.Missing? || numPawls.Missing? {
      return Err(Reported);
    }
    if numRotors.value <= numPawls.value {
      return Err(Reported);
    }
    var rotors: seq<RotorSpec> := [];
    var i := 0;
    while i < |lines|
      invariant 0 <= i <= |lines|
      invariant RotorLines(lines[..i]) == Ok(rotors)
    {
      var str := lines[i];
      assert lines[..i + 1][..i] == lines[..i];
      var added := AddOne(rotors, str);
      if added.Err? {
        FailureStays(lines, i + 1);
        return Err(added.fault);
      }
      rotors := added.value;
      i := i + 1;
    }
    assert lines[..i] == lines;
    r := Ok(Config(alphabet, numRotors.value, numPawls.value, rotors));
  }

  /** One pass of the reader's loop. */
  method AddOne(rotors: seq<RotorSpec>, str: seq<char>) returns (r: Result<seq<RotorSpec>>)
    ensures r == AddLine(rotors, str)
  {
    if |str| < 2 {
      return Err(Crash);
    }
    if str[1] == ' ' {
      if rotors == [] {
        return Err(Crash);
      }
      var last := rotors[|rotors| - 1];
      return Ok(rotors[..|rotors| - 1] + [last.(cycles := last.cycles + str)]);
    }
    var adding := ParseRotor(str[1..]);
    if adding.Err? {
      return Err(adding.fault);
    }
    var taken := Taken(adding.value.name, rotors);
    if taken {
      r := Err(Reported);
    } else {
      r := Ok(rotors + [adding.value]);
    }
  }

  /** The duplicate check: whether a rotor read so far has the name. */
  method Taken(name: seq<char>, rotors: seq<RotorSpec>) returns (b: bool)
    ensures b == NameIn(name, rotors)
  {
    var j := 0;
    while j < |rotors|
      invariant 0 <= j <= |rotors|
      invariant forall k :: 0 <= k < j ==> rotors[k].name != name
    {
      if name == rotors[j].name {
        return true;
      }
      j := j + 1;
    }
    return false;
  }

  // ---------------------------------------------------------------------
  // Building the machine
  // ---------------------------------------------------------------------

  /** The objects `readConfig` builds: one alphabet, a permutation and a
      rotor per entry (setting 0), and the machine over them, with no rotor
      inserted yet and the empty plugboard. */
  method Build(cfg: Config) returns (m: Machine)
    ensures fresh(m) && m.Valid() && m.slots == null && m.plugboard.cycles == []
    ensures m.alphabet.chars == cfg.alphabet && m.numRotors == cfg.numRotors && m.pawls == cfg.numPawls
    ensures |m.allRotors| == |cfg.rotors|
    ensures forall k :: 0 <= k < |cfg.rotors| ==>
              fresh(m.allRotors[k]) && m.allRotors[k].name == cfg.rotors[k].name &&
              m.allRotors[k].State() == RotorState(cfg.rotors[k].kind, cfg.rotors[k].cycles, 0)
  {
    var alpha := new Alphabet(cfg.alphabet);
    var built: seq<Rotor> := [];
    var i := 0;
    while i < |cfg.rotors|
      invariant 0 <= i <= |cfg.rotors| && |built| == i
      invariant alpha.Valid() && alpha.chars == cfg.alphabet
      invariant forall k :: 0 <= k < i ==>
                  fresh(built[k]) && built[k].perm.alphabet == alpha && built[k].name == cfg.rotors[k].name &&
                  built[k].State() == RotorState(cfg.rotors[k].kind, cfg.rotors[k].cycles, 0)
    {
      var spec := cfg.rotors[i];
      var perm := new Permutation(spec.cycles, alpha);
      var rotor := new Rotor(spec.name, spec.kind, perm);
      built := built + [rotor];
      i := i + 1;
    }
    m := new Machine(alpha, cfg.numRotors, cfg.numPawls, built);
  }
}
