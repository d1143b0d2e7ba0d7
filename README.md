# Enigma rotor-cipher engine in Dafny

This project models the engine of an Enigma-style rotor cipher machine and
proves properties of it. The engine has these parts:

- **Alphabet.** Maps symbols to dense indices and back.
- **Permutation.** Written in cycle notation and kept as text. The text is
  split into cycles again on every lookup.
- **Rotors.** Moving, fixed and reflector rotors.
- **Machine.** Holds an array of rotor slots and a plugboard. For each key
  press it checks the pawl count, then advances the rotors selected from the
  notch state before the step (this gives double-stepping). It then sends
  the signal through:
  1. the plugboard,
  2. the rotors from right to left into the reflector,
  3. the rotors from left to right,
  4. the plugboard again.
- **Driver.** The string logic around the machine:
  - reading the configuration: the alphabet, the slot and pawl counts, and
    the rotor descriptors;
  - splitting a setting line;
  - the rule that a setting line comes before any message;
  - printing the output in blocks of five.

The model follows the shape of the code:

- Code that changes objects becomes Dafny classes whose methods have
  `modifies` clauses: `Permutation`, `Rotor` and `Machine`. `Alphabet` is a
  class too; only its constructor writes its symbol array.
- The driver's loops become methods with loop invariants.
- Each method is proved against a pure specification function over value
  snapshots:
  - `RotorState` is one rotor's kind, wiring text and setting;
  - `Keystroke` is one `convert(int)`;
  - `ConvertMessage` is one `convert(String)`;
  - `SetupOf` splits a setting line;
  - `RotorLines` and `ConfigOf` read the configuration;
  - `Blocks` is the printed form of a message.
- The laws are lemmas about those functions. The main ones are:
  - the index round trips of the alphabet;
  - the inverse law of a permutation;
  - one advance per rotor per step, including double-stepping and a rotor
    shared by two slots;
  - reciprocity of the whole machine: from the same settings, encoding the
    output gives back the (upper-cased) input.

Failures come in two kinds, `Fault = Reported | Crash`:

- `Reported` is an `EnigmaException`. `convert(String)` catches it and
  copies the symbol.
- `Crash` is a Java runtime fault: a null dereference, an index out of
  range, an array of negative size, or a division by zero (`wrap` over an
  empty alphabet). Nothing catches it.

The code is followed where it departs from the documented intent:

- When the cycle text has no space, it is taken as one cycle with only ')'
  removed, so '(' stays part of the cycle (`SplitLaws.UnspacedTextKeepsParen`).
- A symbol that appears in several cycles takes its value from the last one
  (`SplitLaws.LaterCycleWins`).
- `toInt` answers the last index of a repeated symbol
  (`Alphabets.DuplicateAnswersLast`).
- A setting line with fewer names than slots gives the last word to every
  remaining slot (`SetupLines.ShortSetupRepeatsLastWord`).

The base `Rotor`, `MovingRotor` and `Reflector` classes are not part of this
model. The header of `rotor.dfy` states the behaviour assumed for them, and
it is limited to the operations the machine calls.

## Model

| member | source | states |
|---|---|---|
| Alphabets.LastIndex | Enigma/proj1/enigma/Alphabet.java:46-60 | the lookup succeeds exactly when the symbol is present; the index it answers holds the symbol and no later index does; absence is a reported error |
| Alphabets.Alphabet.constructor | Enigma/proj1/enigma/Alphabet.java:10-16 | the symbol array is a fresh copy of the construction string, so `size()` is the number of symbols given |
| Alphabets.DefaultAlphabet | Enigma/proj1/enigma/Alphabet.java:19-21 | the default alphabet is "A" to "Z": size 26, with symbol k equal to 'A' + k |
| Alphabets.Alphabet.ToChar | Enigma/proj1/enigma/Alphabet.java:35-42 | succeeds exactly when 0 <= index < size, answering the symbol at that index; out of range is a reported error |
| Alphabets.Alphabet.ToInt | Enigma/proj1/enigma/Alphabet.java:46-60 | the array scan answers the last index of the symbol, and fails exactly when `contains` is false |
| Alphabets.LastIndexIsLast | Enigma/proj1/enigma/Alphabet.java:49-54 | an index holding the symbol with no later occurrence is the answer, because the loop has no break |
| Alphabets.IndexRoundTrip | Enigma/proj1/enigma/Alphabet.java:44-45 | with no repeated symbol, toInt(toChar(i)) == i for every index in range |
| Alphabets.SymbolRoundTrip | Enigma/proj1/enigma/Alphabet.java:44-45 | toChar(toInt(c)) == c for every symbol of the alphabet |
| Alphabets.DuplicateAnswersLast | Enigma/proj1/enigma/Alphabet.java:49-54 | in "ABA", 'A' has index 2 |
| Alphabets.Alphabet.Size | Enigma/proj1/enigma/Alphabet.java:24-26 | the number of symbols given at construction |
| Alphabets.Alphabet.Contains | Enigma/proj1/enigma/Alphabet.java:29-31 | holds exactly when the symbol occurs in the construction string |
| Modular.Wrap | Enigma/proj1/enigma/Permutation.java:55-61 | the wrapped index lies in [0, size) |
| Modular.JavaRem | Enigma/proj1/enigma/Permutation.java:56 | Java's `%`: for a non-negative dividend the remainder lies in [0, n); for a negative one in (-n, 0], taking the dividend's sign |
| Modular.JavaWrap | Enigma/proj1/enigma/Permutation.java:55-61 | `wrap` as written, remainder then correction by one size when negative, always lands in [0, n) |
| Modular.JavaWrapIsWrap | Enigma/proj1/enigma/Permutation.java:55-61 | `wrap` written with Java's truncating remainder, then the correction for negatives, equals the model's `Wrap` for every integer, negative ones included |
| Modular.JavaWrapIsMod | Enigma/proj1/enigma/Permutation.java:55-61 | the Java `wrap` is the non-negative residue of p modulo the size |
| Modular.WrapIsMod | Enigma/proj1/enigma/Permutation.java:55-61 | `Wrap` is congruent to p modulo the size |
| Modular.WrapShift | Enigma/proj1/enigma/Permutation.java:55-61 | adding a multiple of the size does not change the wrapped index |
| Modular.WrapInner | Enigma/proj1/enigma/Permutation.java:55-61 | wrapping an intermediate sum does not change the final wrapped index |
| Modular.WrapInRange | Enigma/proj1/enigma/Permutation.java:55-61 | an index already in range wraps to itself |
| Cycles.SplitAtSeams | Enigma/proj1/enigma/Permutation.java:40 | splitting at ")(" always gives at least one piece |
| Cycles.DropTrailingEmpty | Enigma/proj1/enigma/Permutation.java:40 | the result is a prefix of the pieces, ends with a non-empty piece (or is empty), and everything dropped was an empty piece |
| Cycles.JavaSplit | Enigma/proj1/enigma/Permutation.java:40 | Java's `split` at ")(": the text itself when it has no seam, otherwise the pieces between seams without the trailing empty ones |
| Cycles.Trim | Enigma/proj1/enigma/Permutation.java:41-44 | cuts the first symbol of the first piece and the last symbol of the last piece; no piece, or an empty piece to cut, is a crash as `substring` throws |
| Cycles.Helper | Enigma/proj1/enigma/Permutation.java:32-52 | with a space, the text without spaces is split at ")(" and trimmed; without a space, one piece, the text with only ')' removed |
| Cycles.PermuteIn | Enigma/proj1/enigma/Permutation.java:94-104 | the scan over the split cycles: a symbol in no cycle stays, otherwise the successor within the last cycle holding it (see `Cycles.PermuteInFinds`) |
| Cycles.InvertIn | Enigma/proj1/enigma/Permutation.java:117-127 | the same scan with the predecessor (see `Cycles.InvertInFinds`) |
| Cycles.PermuteText | Enigma/proj1/enigma/Permutation.java:90-109 | `permute(char)`: the empty cycle text is the identity and is not split; otherwise the scan over `helper`'s cycles, and `helper`'s crash |
| Cycles.InvertText | Enigma/proj1/enigma/Permutation.java:112-132 | `invert(char)`: the same with the inverse scan |
| Cycles.DerangementText | Enigma/proj1/enigma/Permutation.java:141-149 | `derangement()`: false exactly when some split cycle has one symbol; the text is split even when empty, so `helper`'s crash is kept |
| Cycles.Succ | Enigma/proj1/enigma/Permutation.java:96-102 | the successor of a symbol in a cycle is in that cycle |
| Cycles.Pred | Enigma/proj1/enigma/Permutation.java:119-125 | the predecessor of a symbol in a cycle is in that cycle |
| Cycles.PermuteInFinds | Enigma/proj1/enigma/Permutation.java:90-109 | a symbol in no cycle is mapped to itself; otherwise to its successor in the last cycle that holds it |
| Cycles.InvertInFinds | Enigma/proj1/enigma/Permutation.java:112-132 | a symbol in no cycle is mapped to itself; otherwise to its predecessor in the last cycle that holds it |
| Cycles.PermIdx | Enigma/proj1/enigma/Permutation.java:70-76 | `permute(int)` over an empty alphabet crashes (division by zero in `wrap`); a result is an index in range |
| Cycles.InvIdx | Enigma/proj1/enigma/Permutation.java:80-86 | the same for `invert(int)` |
| CycleLaws.IndexOfDistinct | Enigma/proj1/enigma/Permutation.java:97 | in a cycle without repeats, `indexOf` finds a symbol at its own position |
| CycleLaws.SuccPred | Enigma/proj1/enigma/Permutation.java:96-102 | in a cycle without repeats, successor and predecessor undo each other, last wrapping to first |
| CycleLaws.SuccIsPredInShortCycle | Enigma/proj1/enigma/Permutation.java:96-125 | in a cycle of at most two symbols, the successor is the predecessor |
| CycleLaws.SuccMoves | Enigma/proj1/enigma/Permutation.java:96-102 | a cycle of two or more symbols moves each of them |
| CycleLaws.CycleInverse | Enigma/proj1/enigma/Permutation.java:90-132 | over disjoint cycles without repeats, the inverse lookup undoes the forward lookup and the other way round |
| CycleLaws.ShortCyclesSelfInverse | Enigma/proj1/enigma/Permutation.java:90-132 | over disjoint cycles of at most two symbols, forward and inverse lookup agree |
| CycleLaws.PermuteStaysIn | Enigma/proj1/enigma/Permutation.java:90-132 | the lookup of a symbol of the alphabet, over cycles drawn from the alphabet, stays in the alphabet |
| CycleLaws.LastIndexOfDistinct | Enigma/proj1/enigma/Alphabet.java:46-60 | with no repeated symbol, `toInt` of the i-th symbol is i |
| CycleLaws.PermIdxWraps | Enigma/proj1/enigma/Permutation.java:70-86 | `permute(int)` and `invert(int)` depend on their argument only modulo the size |
| CycleLaws.PermuteThenInvert | Enigma/proj1/enigma/Permutation.java:68-86 | for a bijective cycle text, permute succeeds and invert(permute(p)) == wrap(p) |
| CycleLaws.InvertThenPermute | Enigma/proj1/enigma/Permutation.java:68-86 | for a bijective cycle text, invert succeeds and permute(invert(c)) == wrap(c) |
| CycleLaws.InvolutionAgrees | Enigma/proj1/enigma/Permutation.java:68-86 | for a text of swaps, `permute(int)` and `invert(int)` give the same result |
| CycleLaws.DerangementMovesCycledSymbols | Enigma/proj1/enigma/Permutation.java:141-149 | when `derangement()` is true, every symbol in some cycle is moved by `permute` |
| CycleLaws.NonDerangementHasFixedPoint | Enigma/proj1/enigma/Permutation.java:141-149 | when `derangement()` is false, some cycle has one symbol and `permute` fixes it |
| CycleLaws.EmptyTextIsDerangement | Enigma/proj1/enigma/Permutation.java:141-149 | the empty cycle text is a derangement, and both lookups map every symbol to itself |
| SplitLaws.SplitAfterPiece | Enigma/proj1/enigma/Permutation.java:40 | a piece free of ')' ends at the next ")(" |
| SplitLaws.SplitLastPiece | Enigma/proj1/enigma/Permutation.java:40 | a last piece free of ')' followed by ')' is not split |
| SplitLaws.SplitJoined | Enigma/proj1/enigma/Permutation.java:40 | "(c0)(c1)...(cm)" splits into one piece per cycle |
| SplitLaws.HelperSplitsSpacedText | Enigma/proj1/enigma/Permutation.java:38-45 | a spaced cycle text is split into exactly its cycles: spaces removed, split at ")(", outer parentheses dropped |
| SplitLaws.JavaSplitWhole | Enigma/proj1/enigma/Permutation.java:40 | Java's `split` drops nothing when the last piece is not empty |
| SplitLaws.TrimPieces | Enigma/proj1/enigma/Permutation.java:41-44 | trimming the first and last piece of "(c0)...(cm)" leaves the cycles |
| SplitLaws.UnspacedTextKeepsParen | Enigma/proj1/enigma/Permutation.java:46-50 | with no space, "(c)" is one cycle "(c" that keeps '(', so the last symbol of c maps to '(' |
| SplitLaws.WithoutAppend | Enigma/proj1/enigma/Permutation.java:34 | removing a symbol ignores that symbol at the end |
| Text.WithoutAbsent | Enigma/proj1/enigma/Permutation.java:34 | removing an absent symbol changes nothing |
| Text.WithoutConcat | Enigma/proj1/enigma/Permutation.java:34 | removing a symbol distributes over concatenation |
| SplitLaws.LaterCycleWins | Enigma/proj1/enigma/Permutation.java:94-104 | in "(AB) (AC)", 'A' maps to 'C' both ways: the later cycle decides |
| SplitLaws.SplitTwoCycles | Enigma/proj1/enigma/Permutation.java:38-45 | "(AB) (AC)" splits into "AB" and "AC" |
| SplitLaws.SqueezeTwoCycles | Enigma/proj1/enigma/Permutation.java:34 | removing the spaces of "(AB) (AC)" gives "(AB)(AC)" |
| SplitLaws.JoinedAppend | Enigma/proj1/enigma/Permutation.java:25-27 | the cycle text of two lists of cycles joins at ")(" |
| SplitLaws.CompactAppend | Enigma/proj1/enigma/Permutation.java:25-27 | the compact text of two lists of cycles is their concatenation |
| SplitLaws.AppendedCyclesAreSeen | Enigma/proj1/enigma/Permutation.java:25-27 | after `addCycles`, the split sees the old cycles followed by the new ones |
| Permutations.Permutation.constructor | Enigma/proj1/enigma/Permutation.java:16-20 | keeps exactly the cycle text and alphabet given |
| Permutations.Permutation.AddCycles | Enigma/proj1/enigma/Permutation.java:25-27 | the new cycle text is the old one followed by the added text |
| Permutations.Permutation.PermuteChar | Enigma/proj1/enigma/Permutation.java:90-109 | the loop over the split cycles answers the successor of the symbol in the last cycle that holds it, or the symbol itself |
| Permutations.Permutation.InvertChar | Enigma/proj1/enigma/Permutation.java:112-132 | the same scan, answering the predecessor |
| Permutations.Permutation.Permute | Enigma/proj1/enigma/Permutation.java:70-76 | wrap, look up the symbol, permute it, answer its index |
| Permutations.Permutation.Invert | Enigma/proj1/enigma/Permutation.java:80-86 | wrap, look up the symbol, invert it, answer its index |
| Permutations.Permutation.Derangement | Enigma/proj1/enigma/Permutation.java:141-149 | the loop answers false as soon as a split cycle has one symbol, and true otherwise |
| Rotors.Forward | Enigma/proj1/enigma/Machine.java:116-118 | a rotor's forward pass answers an index in range |
| Rotors.Backward | Enigma/proj1/enigma/Machine.java:119-121 | a rotor's backward pass answers an index in range |
| Rotors.FixedAdvanceIsIdle | Enigma/proj1/enigma/FixedRotor.java:20-22 | any number of `advance()` calls on a fixed rotor or a reflector leaves its state unchanged |
| Rotors.MovingAdvanceSteps | Enigma/proj1/enigma/Machine.java:113-115 | a moving rotor's advance adds one to the setting, wrapping the last index to 0, and keeps kind and wiring |
| Rotors.ForwardThenBackward | Enigma/proj1/enigma/Machine.java:116-121 | for a bijective wiring, the backward pass undoes the forward pass at any setting |
| Rotors.BackwardThenForward | Enigma/proj1/enigma/Machine.java:116-121 | for a bijective wiring, the forward pass undoes the backward pass at any setting |
| Rotors.ForwardGives | Enigma/proj1/enigma/Machine.java:116-118 | the forward pass is wrap(permute(c + setting) - setting) |
| Rotors.BackwardGives | Enigma/proj1/enigma/Machine.java:119-121 | the backward pass is wrap(invert(c + setting) - setting) |
| Rotors.ForwardAt | Enigma/proj1/enigma/Machine.java:116-118 | the forward pass depends on the shifted contact only modulo the size |
| Rotors.BackwardAt | Enigma/proj1/enigma/Machine.java:119-121 | the backward pass depends on the shifted contact only modulo the size |
| Rotors.ForwardUndoesShift | Enigma/proj1/enigma/Machine.java:116-121 | the forward pass undoes the shifted inverse lookup |
| Rotors.BackwardUndoesShift | Enigma/proj1/enigma/Machine.java:116-121 | the backward pass undoes the shifted forward lookup |
| Rotors.ShiftDownUp | Enigma/proj1/enigma/Permutation.java:55-61 | shifting an index down by s and back up by s, wrapping each time, gives it back |
| Rotors.ShiftUpDown | Enigma/proj1/enigma/Permutation.java:55-61 | shifting an index up by s and back down by s, wrapping each time, gives it back |
| Rotors.InvolutiveRotorSymmetric | Enigma/proj1/enigma/Machine.java:116-121 | a rotor wired with swaps has equal forward and backward passes |
| Rotors.Rotor.constructor | Enigma/proj1/enigma/FixedRotor.java:16-18 | keeps exactly the given name, kind and permutation; the setting starts at 0, and it is the only setting field |
| Rotors.Rotor.Advance | Enigma/proj1/enigma/FixedRotor.java:20-22 | the new state is the advanced state: unchanged for a fixed rotor or a reflector, one step on for a moving one |
| Rotors.Rotor.Set | Enigma/proj1/enigma/Machine.java:65 | succeeds exactly for a symbol of the alphabet and sets the setting to its index; otherwise reported, with the setting unchanged |
| Rotors.Rotor.ConvertForward | Enigma/proj1/enigma/Machine.java:117 | the rotor's forward pass at its current state |
| Rotors.Rotor.ConvertBackward | Enigma/proj1/enigma/Machine.java:120 | the rotor's backward pass at its current state |
| Rotors.Rotates | Enigma/proj1/enigma/Machine.java:85 | only a moving rotor rotates |
| Rotors.Reflecting | Enigma/proj1/enigma/Machine.java:64 | only a reflector reflects |
| Rotors.AtNotch | Enigma/proj1/enigma/Machine.java:102 | a moving rotor whose setting's symbol is one of its notches |
| Rotors.Rotor.State | Enigma/proj1/enigma/FixedRotor.java:8-18 | the snapshot the value-level functions read: kind, current cycle text, setting |
| Signals.Step | Enigma/proj1/enigma/Machine.java:97-115 | the step keeps the number of slots |
| Signals.CountRotating | Enigma/proj1/enigma/Machine.java:83-88 | the count loop: the number of slots whose rotor rotates |
| Signals.AdvanceSet | Enigma/proj1/enigma/Machine.java:97-111 | the advance list after examining pairs (0,1) .. (i-1,i): the last slot's rotor, and both rotors of every pair that both rotate with the right one at a notch, all read before the step |
| Signals.Advancing | Enigma/proj1/enigma/Machine.java:97-111 | the whole advance list, as a set because `contains` keeps it free of repeats |
| Signals.Fwd | Enigma/proj1/enigma/Machine.java:116-118 | `convertForward` through the slots from the last down to the reflector, stopping at the first failure |
| Signals.Bwd | Enigma/proj1/enigma/Machine.java:119-121 | `convertBackward` through slots 1 to the last, stopping at the first failure |
| Signals.RotorPath | Enigma/proj1/enigma/Machine.java:116-121 | the forward pass then the backward pass |
| Signals.Signal | Enigma/proj1/enigma/Machine.java:94-124 | the signal path answers an index in range |
| Signals.Keystroke | Enigma/proj1/enigma/Machine.java:82-126 | a key press keeps the number of slots and answers an index in range |
| Signals.EncodeChar | Enigma/proj1/enigma/Machine.java:143-150 | one pass of the message loop keeps the number of slots |
| Signals.EncodeRun | Enigma/proj1/enigma/Machine.java:141-150 | the message loop keeps the number of slots |
| Signals.ConvertMessage | Enigma/proj1/enigma/Machine.java:130-152 | `convert(String)`: a pawl mismatch is reported with no rotor moved; otherwise the message loop over the upper-cased text; the result keeps one state per slot |
| StepLaws.AdvanceSetMembers | Enigma/proj1/enigma/Machine.java:97-111 | a rotor is in the advance list exactly when it is in the last slot, or in slot j or j+1 where both rotate and slot j+1 is at a notch |
| StepLaws.StepKeepsWiring | Enigma/proj1/enigma/Machine.java:113-115 | a step changes only settings: every slot keeps its kind and wiring |
| StepLaws.CountRotatingWiring | Enigma/proj1/enigma/Machine.java:83-88 | the pawl count depends on the kinds alone |
| StepLaws.StepOfDistinctRotors | Enigma/proj1/enigma/Machine.java:97-115 | with distinct rotors, slot k advances once exactly when it is the last slot or next to a pushing pair (double-stepping); the others keep their state |
| StepLaws.StepBySharedRotor | Enigma/proj1/enigma/Machine.java:99-115 | with a rotor in two slots, it advances once if either slot selects it; the `contains` check stops a second advance |
| StepLaws.StepKeepsSharing | Enigma/proj1/enigma/Machine.java:99-115 | two slots holding the same rotor still agree after the step |
| StepLaws.DoubleStep | Enigma/proj1/enigma/Machine.java:97-111 | with the middle rotor at its notch, the left and middle rotors step together with the right one |
| StepLaws.StepAfterDoubleStep | Enigma/proj1/enigma/Machine.java:97-111 | on the next key press, only the right rotor steps |
| SignalLaws.DownLast | Enigma/proj1/enigma/Machine.java:116-118 | the right-to-left pass through slots lo..hi-1 ends at slot lo |
| SignalLaws.UpLast | Enigma/proj1/enigma/Machine.java:119-121 | the left-to-right pass through slots lo..hi-1 ends at slot hi-1 |
| SignalLaws.DownThenUp | Enigma/proj1/enigma/Machine.java:116-121 | when each slot's backward map undoes its forward map, the way back undoes the way in |
| SignalLaws.UpThenDown | Enigma/proj1/enigma/Machine.java:116-121 | the same with the roles exchanged |
| SignalLaws.FwdIsDown | Enigma/proj1/enigma/Machine.java:116-118 | the forward pass is the generic right-to-left pass through the rotors' forward maps |
| SignalLaws.BwdIsUp | Enigma/proj1/enigma/Machine.java:119-121 | the backward pass is the generic left-to-right pass through the rotors' backward maps |
| SignalLaws.BwdUndoesFwd | Enigma/proj1/enigma/Machine.java:116-121 | through bijective rotors, going back through the slots undoes going in |
| SignalLaws.FwdUndoesBwd | Enigma/proj1/enigma/Machine.java:116-121 | through bijective rotors, going in undoes going back |
| SignalLaws.ReflectTwice | Enigma/proj1/enigma/Machine.java:116-118 | a reflector of swaps sends the signal back where it came from |
| SignalLaws.PlugTwice | Enigma/proj1/enigma/Machine.java:122-124 | a plugboard of swaps applied twice gives the index back |
| SignalLaws.RotorPathTwice | Enigma/proj1/enigma/Machine.java:116-121 | with a reflector of swaps and bijective rotors, the rotor path is its own inverse |
| SignalLaws.RotorPathThrough | Enigma/proj1/enigma/Machine.java:116-121 | the rotor path is the backward pass applied to what the reflector sends back |
| SignalLaws.ReachReflector | Enigma/proj1/enigma/Machine.java:116-118 | the right-to-left pass through every slot ends where the reflector sends it |
| SignalLaws.SignalTwice | Enigma/proj1/enigma/Machine.java:94-124 | for a reciprocal machine at fixed settings, the signal path succeeds and is its own inverse |
| MessageLaws.UpperOfFixed | Enigma/proj1/enigma/Machine.java:141 | upper-casing text that is already upper case changes nothing |
| MessageLaws.UpperIsFixed | Enigma/proj1/enigma/Machine.java:141 | upper-cased text is its own upper case |
| MessageLaws.EncodeRunLength | Enigma/proj1/enigma/Machine.java:141-150 | a successful message loop outputs one symbol per input symbol |
| MessageLaws.PassThrough | Enigma/proj1/enigma/Machine.java:143-149 | symbols outside the alphabet are copied unchanged and no rotor moves |
| MessageLaws.PawlMismatch | Enigma/proj1/enigma/Machine.java:131-139 | when the rotating slots do not match the pawls, `convert(String)` reports an error before any rotor moves, and a loop of `convert(int)` copies every symbol with no rotor moving |
| MessageLaws.StepKeepsReciprocal | Enigma/proj1/enigma/Machine.java:113-115 | a step keeps the machine reciprocal and keeps the pawl count |
| MessageLaws.KeystrokeTwice | Enigma/proj1/enigma/Machine.java:82-126 | from the same settings, pressing the output key gives back the input key, with the same rotor step |
| MessageLaws.KeystrokeIsSignal | Enigma/proj1/enigma/Machine.java:82-126 | a key press with the right pawl count is the step followed by the signal path through the stepped rotors |
| MessageLaws.CharTwice | Enigma/proj1/enigma/Machine.java:143-150 | one pass of the message loop, repeated from the same settings on its output symbol, gives back the input symbol and the same rotor states |
| MessageLaws.EncodeRunTwice | Enigma/proj1/enigma/Machine.java:141-150 | a reciprocal machine's message loop, run again from the same settings on its output, gives back the input and the same final rotor states |
| MessageLaws.MessageTwice | Enigma/proj1/enigma/Machine.java:130-152 | re-encoding the output of `convert(String)` from the same start settings gives back the upper-cased input |
| MessageLaws.FailureEndsRun | Enigma/proj1/enigma/Machine.java:141-150 | a crash ends the message loop: the later symbols change nothing |
| Text.Upper | Enigma/proj1/enigma/Machine.java:141 | upper-casing keeps the length and maps each symbol to its upper case |
| Text.Without | Enigma/proj1/enigma/Permutation.java:34 | removing a symbol leaves none of it and does not lengthen the text |
| Text.IndexOf | Enigma/proj1/enigma/Main.java:197 | `indexOf` is -1 exactly when the symbol is absent, and otherwise the first position holding it |
| Text.UpperIdempotent | Enigma/proj1/enigma/Machine.java:141 | upper-casing twice is upper-casing once |
| Text.SplitAt | Enigma/proj1/enigma/Main.java:197-200 | at the first occurrence of a symbol, the text splits into the part before it and the part after it |
| Machines.StatesOf | Enigma/proj1/enigma/Machine.java:82-126 | the state snapshot has one entry per slot: the state of that slot's rotor |
| Machines.NameTable | Enigma/proj1/enigma/Machine.java:39-42 | every rotor in the name map is one of the available rotors |
| Machines.LastNamed | Enigma/proj1/enigma/Machine.java:39-42 | finds the last available rotor whose upper-cased name is the key, or none |
| Machines.NameTableFindsLast | Enigma/proj1/enigma/Machine.java:39-42 | a key is in the map exactly when some rotor has that upper-cased name, and a later `put` overwrites an earlier one |
| Machines.Find | Enigma/proj1/enigma/Machine.java:45 | `get` with the upper-cased name: null when the name is not a key |
| Machines.Lookup | Enigma/proj1/enigma/Machine.java:39-45 | the rotor the name table gives a name, or null |
| Machines.SetStop | Enigma/proj1/enigma/Machine.java:63-70 | the slot where `setRotors` stops lies between the start and the end |
| Machines.LastSlot | Enigma/proj1/enigma/Machine.java:63-70 | the last slot below the bound that holds the rotor is that rotor's slot |
| Machines.SetStopIsFirstBad | Enigma/proj1/enigma/Machine.java:63-70 | every slot before the stop holds a non-reflector and a setting symbol of the alphabet; the stop is the first empty slot, reflector or symbol outside the alphabet |
| Machines.SetResult | Enigma/proj1/enigma/Machine.java:63-70 | how the setting loop ends: past the last slot it succeeds, an empty slot crashes, a reflector or a symbol outside the alphabet is reported |
| Machines.SetBy | Enigma/proj1/enigma/Machine.java:63-66 | the setting of a rotor after slots 1 .. hi-1: the index of the symbol of the last of them holding it, or its prior setting |
| Machines.LastSlotOfDistinct | Enigma/proj1/enigma/Machine.java:63-70 | with distinct rotors, a rotor's last slot is the slot it occupies |
| Machines.SetByStep | Enigma/proj1/enigma/Machine.java:63-66 | one pass of the setting loop sets only the rotor in slot i |
| Machines.RotatingInStates | Enigma/proj1/enigma/Machine.java:83-88 | counting rotating slots over the objects and over the snapshot agree |
| Machines.RotatingIn | Enigma/proj1/enigma/Machine.java:83-88 | the count loop over the slot objects |
| Machines.Machine.constructor | Enigma/proj1/enigma/Machine.java:15-22 | keeps the alphabet, slot count, pawl count and available rotors; no rotor is inserted, and the plugboard is the empty permutation |
| Machines.Machine.NameMap | Enigma/proj1/enigma/Machine.java:39-42 | the loop builds the name map of the available rotors |
| Machines.Machine.InsertRotors | Enigma/proj1/enigma/Machine.java:37-54 | a negative slot count crashes; otherwise the fresh slot array has numRotors slots, slot i holds the rotor named names[i] ignoring case, or null; too few names crash, too many are reported |
| Machines.Machine.FillSlots | Enigma/proj1/enigma/Machine.java:43-49 | the slot loop fills slot i from the map while names last |
| Machines.Machine.SetRotors | Enigma/proj1/enigma/Machine.java:59-71 | a wrong setting length is reported and sets nothing; otherwise slots 1 onwards are set from setting[i-1] until the first empty slot (crash), reflector or unknown symbol (reported); slot 0 is never set |
| Machines.Machine.SetPlugboard | Enigma/proj1/enigma/Machine.java:74-76 | the plugboard is replaced and the slots are unchanged |
| Machines.Machine.CountRotors | Enigma/proj1/enigma/Machine.java:83-88 | counts the rotating slots; an empty slot or no slot array crashes |
| Machines.Machine.AdvanceList | Enigma/proj1/enigma/Machine.java:97-111 | the advance list has no repeats and holds exactly the rotors the step advances |
| Machines.Machine.ApplyAdvance | Enigma/proj1/enigma/Machine.java:113-115 | each listed rotor advances exactly once, and no other rotor changes |
| Machines.Machine.ForwardPass | Enigma/proj1/enigma/Machine.java:116-118 | the loop is the right-to-left pass through all slots |
| Machines.Machine.BackwardPass | Enigma/proj1/enigma/Machine.java:119-121 | the loop is the left-to-right pass from slot 1 |
| Machines.Machine.StepRotors | Enigma/proj1/enigma/Machine.java:97-115 | every slot's rotor is left in its stepped state |
| Machines.Machine.Passes | Enigma/proj1/enigma/Machine.java:94-124 | the plugboard and both passes compute the signal path |
| Machines.Machine.ConvertIndex | Enigma/proj1/enigma/Machine.java:82-126 | an empty slot crashes; otherwise the answer and the new rotor states are those of a key press from the old states |
| Machines.Machine.Counted | Enigma/proj1/enigma/Machine.java:89-125 | after the count, the key press's answer and rotor states |
| Machines.Machine.ConvertString | Enigma/proj1/enigma/Machine.java:130-152 | an empty slot crashes; otherwise the text and the new rotor states are those of the message function from the old states |
| Machines.Machine.EncodeLoop | Enigma/proj1/enigma/Machine.java:141-150 | the loop's text and rotor states are those of the message loop function |
| Machines.Machine.ConvertSymbol | Enigma/proj1/enigma/Machine.java:143-149 | one pass: a symbol outside the alphabet is copied; a reported error is caught and the symbol copied after the step; a crash ends the run |
| Grouping.GroupInFives | Enigma/proj1/enigma/Main.java:220-236 | the printed line is the message without its spaces, in blocks of five |
| Grouping.Blocks | Enigma/proj1/enigma/Main.java:220-236 | the printed form: a space after every fifth letter; n letters make n + n/5 symbols |
| Grouping.CountStep | Enigma/proj1/enigma/Main.java:226-233 | loop helper for `Grouping.GroupInFives`: with the counter equal to the letter count modulo five, adding one and resetting at five keeps it so |
| Grouping.BlocksAppend | Enigma/proj1/enigma/Main.java:226-233 | one more letter is appended, followed by a space when it completes a block |
| Grouping.BlocksWithoutSpaces | Enigma/proj1/enigma/Main.java:224-229 | removing the spaces from the printed line gives the letters back, in order |
| Grouping.BlocksLayout | Enigma/proj1/enigma/Main.java:230-233 | the printed line has n + n/5 symbols, and its spaces are exactly at positions 5, 11, 17, ... |
| SetupLines.TakeNames | Enigma/proj1/enigma/Main.java:196-204 | the name loop gives exactly one name per slot |
| SetupLines.Cut | Enigma/proj1/enigma/Main.java:197-203 | one pass of the name loop: with a space, the text before it and the text after it; without one, the whole text twice, as the text is not consumed |
| SetupLines.Complete | Enigma/proj1/enigma/Main.java:205-213 | after the names: without a space the rest is the setting and the plugboard is empty; with one, the setting is up to the first space and the plugboard after it |
| SetupLines.SetupOf | Enigma/proj1/enigma/Main.java:191-213 | the whole split of a setting line, with one name per slot |
| SetupLines.SplitSetup | Enigma/proj1/enigma/Main.java:191-213 | a negative slot count crashes; otherwise the split is the names, the setting and the plugboard of the line |
| SetupLines.NameLoop | Enigma/proj1/enigma/Main.java:196-204 | the loop takes the names and leaves the text after them |
| SetupLines.NextName | Enigma/proj1/enigma/Main.java:197-203 | one pass: with a space, the name and the remaining text reassemble the text around its first space, and the name has no space; without one, the whole text is the name and is not consumed |
| SetupLines.TakeStep | Enigma/proj1/enigma/Main.java:196-204 | one pass takes the text up to the first space, or all of it when there is none |
| SetupLines.SetupOfParts | Enigma/proj1/enigma/Main.java:205-213 | after the names, the setting is the text up to the next space and the plugboard the rest, or empty |
| SetupLines.TakeSpaced | Enigma/proj1/enigma/Main.java:196-204 | names joined by spaces are taken back one by one, leaving the rest of the line |
| SetupLines.SetupAfterNames | Enigma/proj1/enigma/Main.java:196-213 | after well-formed names, the rest of the line is split at its first space |
| SetupLines.SetupWithoutPlugboard | Enigma/proj1/enigma/Main.java:205-208 | names and a setting give those names and that setting, with the empty plugboard |
| SetupLines.SetupWithPlugboard | Enigma/proj1/enigma/Main.java:209-212 | names, a setting and cycles give those names, that setting and those cycles as the plugboard |
| SetupLines.ShortSetupRepeatsLastWord | Enigma/proj1/enigma/Main.java:196-204 | "B IV" for three slots gives names B, IV, IV and setting IV |
| Configs.FieldsOf | Enigma/proj1/enigma/Main.java:157-167 | the name and type token have no space and the cycles open with '('; a missing space or '(' crashes |
| Configs.KindOf | Enigma/proj1/enigma/Main.java:170-182 | the first letter of the type token selects the kind; for a moving rotor the token is 'M' and the notches; it fails exactly for an empty token, a bare "M" or another first letter |
| Configs.ParseRotor | Enigma/proj1/enigma/Main.java:154-187 | `readRotor`: the three fields, then the kind from the type token; a failure of either is passed on |
| Configs.FieldsOfDescriptor | Enigma/proj1/enigma/Main.java:157-167 | the three fields of a descriptor are read back |
| Configs.FirstField | Enigma/proj1/enigma/Main.java:157-160 | the name ends at the first space |
| Configs.SecondField | Enigma/proj1/enigma/Main.java:160-165 | the type token ends at the next space, and the cycles start at the first '(' after the name |
| Configs.FieldsOfParts | Enigma/proj1/enigma/Main.java:157-167 | the fields from the positions of the spaces and of '(' |
| Configs.ParseDescribe | Enigma/proj1/enigma/Main.java:154-187 | parsing the descriptor of a describable rotor gives that rotor back |
| Configs.KindOfToken | Enigma/proj1/enigma/Main.java:170-179 | the type token of a kind selects that kind |
| Configs.ParseOfFields | Enigma/proj1/enigma/Main.java:154-187 | a rotor is its fields with the kind its type token selects |
| Configs.ParseRejectsType | Enigma/proj1/enigma/Main.java:170-182 | a bare "M" or a type token opening with another letter is reported |
| Configs.KindOfRejects | Enigma/proj1/enigma/Main.java:170-182 | those type tokens are reported by the kind selection |
| Configs.NamesOf | Enigma/proj1/enigma/Main.java:132-142 | the names of the rotors read, in order |
| Configs.AddLine | Enigma/proj1/enigma/Main.java:131-142 | one rotor line: a line shorter than two symbols crashes; a continuation extends the last rotor's cycles (crashing with no rotor yet); otherwise the descriptor after the first symbol is added unless its name is taken, which is reported |
| Configs.RotorLines | Enigma/proj1/enigma/Main.java:130-143 | the rotor list after all the lines, stopping at the first failure |
| Configs.RotorLinesSnoc | Enigma/proj1/enigma/Main.java:130-143 | reading one more line extends the read so far |
| Configs.AddLineNames | Enigma/proj1/enigma/Main.java:132-142 | one line adds its name, if any, and keeps the names distinct |
| Configs.RotorLinesNames | Enigma/proj1/enigma/Main.java:130-143 | a successful read holds one rotor per descriptor line, in order, with distinct names |
| Configs.AddLineTaken | Enigma/proj1/enigma/Main.java:136-140 | a descriptor naming a rotor already read is reported |
| Configs.DuplicateReported | Enigma/proj1/enigma/Main.java:136-140 | two descriptor lines naming the same rotor make the read fail with a reported error |
| Configs.ContinuationExtends | Enigma/proj1/enigma/Main.java:132-133 | a line whose second symbol is a space appends its text to the previous rotor's cycles |
| Configs.FailureStays | Enigma/proj1/enigma/Main.java:130-143 | once a line has failed, the read has failed with that fault |
| Configs.ConfigOf | Enigma/proj1/enigma/Main.java:104-149 | an accepted configuration has a non-empty, space-free alphabet, more slots than pawls and distinct rotor names, one per descriptor line |
| Configs.ReadConfig | Enigma/proj1/enigma/Main.java:104-149 | the reading loop computes the configuration function |
| Configs.AddOne | Enigma/proj1/enigma/Main.java:131-142 | one pass of the reading loop reads one line |
| Configs.Taken | Enigma/proj1/enigma/Main.java:136-140 | the duplicate check finds a rotor already read with that name |
| Configs.Build | Enigma/proj1/enigma/Main.java:144-145 | the machine is built over the alphabet and counts read, with a fresh rotor at setting 0 per entry, no rotor inserted and the empty plugboard |
| Driver.SetUpDone | Enigma/proj1/enigma/Main.java:191-216 | what `setUp` leaves: a negative slot count crashes with the slots, the plugboard and every rotor setting unchanged; otherwise the line's plugboard is installed, the named rotors fill the slots, and they are set as `setRotors` sets them |
| Driver.SetUp | Enigma/proj1/enigma/Main.java:191-216 | `Driver.SetUpDone` holds of the setting text: the split, the plugboard, the inserted rotors and their settings |
| Driver.SettingLine | Enigma/proj1/enigma/Main.java:86-88 | a setting line too short to hold "* " crashes; a longer one does what `Driver.SetUp` does with the text after "* " |
| Driver.MessageDone | Enigma/proj1/enigma/Main.java:94-96 | what a message line leaves: the printed line is the converted message in blocks of five (nothing is printed after a failure, which carries the conversion's fault), the rotors end in the message function's states, and the slots, the plugboard and the setting of every rotor in no slot stay |
| Driver.MessageLine | Enigma/proj1/enigma/Main.java:94-96 | `Driver.MessageDone` holds of the line, with the printed line as the only output on success |
| Driver.MessageCount | Enigma/proj1/enigma/Main.java:85-99 | there are no more message lines than lines |
| Driver.ProcessLine | Enigma/proj1/enigma/Main.java:85-98 | a setting line sets the count to 1, prints nothing and does what `Driver.SettingLine` does; a message before any setting line is reported with nothing changed; any other message increments the count and does what `Driver.MessageLine` does |
| Driver.Process | Enigma/proj1/enigma/Main.java:80-100 | a first line that is not a setting line is reported with nothing printed; a run that ends normally printed one grouped line per message |
| Driver.Session | Enigma/proj1/enigma/Main.java:80-100 | a bad configuration stops the run before any input line; otherwise as `process` |

## Left out

- Files, standard input and output are not modelled: `main`, the driver's
  constructor, `getInput`, `getOutput` and `System.exit`. The configuration
  and the input are sequences of lines, and the printed lines are returned.
- `Scanner` is not modelled:
  - The alphabet line and the two integer tokens are parameters. A missing
    integer is a `Token` value.
  - An empty configuration file is not modelled.
  - The `nextLine` after the two integers is not modelled.
- Configs.ReadConfig and Configs.Build: Java creates each rotor object, with
  its permutation, as it reads the line, and calls `addCycles` on the
  permutation for continuation lines. The model reads the lines into values
  first and then builds the objects.
- The model builds one alphabet object and shares it between the machine
  and all permutations. Java builds two alphabets with the same contents.
- Configs.Build does not model the constructor checks of the `MovingRotor`
  and `Reflector` classes, which are outside this model, such as a
  reflector's derangement check.
- The base `Rotor`, `MovingRotor` and `Reflector` classes are not part of
  this model. Their `convertForward`, `convertBackward`, `advance`,
  `atNotch` and `set` are the assumptions stated in `rotor.dfy`.
- Configs.KindOf: the contract fixes the type token only by its first letter
  for fixed rotors and reflectors, because the code accepts any token
  starting with 'N' or 'R'.
- The plugboard is never null in the model, so the null checks of
  `convert(int)` always pass. No path sets the plugboard to null.
- `toUpperCase` is modelled for ASCII letters only. Java's locale-dependent
  Unicode case mapping is not modelled.
- The text of error messages is not modelled. Each failure is one of the two
  fault kinds.
- Regular expressions are not modelled. `replaceAll` becomes removal of a
  symbol, and `split` becomes splitting at ")(", with Java's removal of
  trailing empty pieces.
- `HashMap` and `ArrayList` become a `map` and sequences.
- Driver.Process: the contents of the printed lines are stated line by line,
  in `Driver.ProcessLine` and `Driver.MessageLine`, and not as a fold over
  the whole input. The contract of the whole loop gives their number and
  their grouping into blocks of five.
- Driver.Session: the same holds for the whole session. It states the
  configuration failures, the number of printed lines and their grouping,
  and leaves their contents to the per-line contracts.
- Driver.Process: the line counter is unbounded, so the 32-bit wrap-around of
  `count` after 2^31 lines is not modelled.
- 32-bit `int` overflow in `c + setting` and in the rotor-counting loops is
  not modelled. Alphabets and settings are far below that bound.
