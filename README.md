# Enigma machine model

A Dafny model of a small simulation of the three-rotor Enigma cipher
machine, together with proofs about it. The model follows the classes of
`enigma/enigma.py`:

- **Shared definitions** (`errors.dfy`, module `Errors`; `modular.dfy`,
  module `Modular`). The errors the constructors report, the `Result` and
  `Option` types, and the arithmetic facts modulo 26 the proofs rely on.
- **Substitution ciphers** (`substitution.dfy`, module `Substitution`). A
  cipher is a 26-letter lookup table. `Encode` maps the letter at alphabet
  position i to `cipher[i]`. `Decode` looks the letter up in the cipher
  (the first occurrence, as Python's `index` does). Both are instances of
  `Translate`, a lookup between two alphabets.
- **Plugboard** (`plugboards.dfy`, module `Plugboards`). `NewPlugboard`
  splits the wiring string on whitespace, as `str.split()` does:
  `SplitWord`, `SplitAtSpace` and `Split([]) == []` pin down the split of
  every string. It checks
  each pair in order and swaps the pair's letters on a board that starts as
  the alphabet. It reports the first failing pair: a token that is not two
  characters, a letter already used or paired with itself, or a character
  that is not a letter.
- **Rotor** (`rotors.dfy`, module `Rotors`). The class `Rotor` has the
  fields `cipher` and `rotation`, and a constant set of turnover letters. Its
  methods update these fields in place, as the source does. Each method is
  proved against functions on the value `RotorState`:
  - `Step`: one turn of the rotor;
  - `StepN`: k turns in a row;
  - `RingSet`: the effect of a ring setting;
  - `SetTo`: turning the rotor until a given letter shows in its window.
- **Reflector** (`reflectors.dfy`, module `Reflectors`). `NewReflector`
  checks, letter by letter, that encoding and decoding agree.
- **Machine** (`machine.dfy`, module `Machine`). The class `Enigma` holds a
  reflector, three rotors and a plugboard. Its methods are proved against:
  - `StepRotors`: the stepping rule, including the double step;
  - `Signal`: the path of a letter through the machine;
  - `Output`: what a whole message becomes;
  - `SetPositions` and `Positions`: setting and reading the window letters.
- **Wirings** (`wirings.dfy`, module `Wirings`). The eight historical rotor
  wirings with their turnover letters, and the four reflector wirings. Next
  to each rotor wiring sits its decoding table. The table serves as the
  witness for the proof that the wiring is a permutation.

The main results:

- Encryption is its own inverse. A machine started from the same rotor
  positions turns the ciphertext back into the sanitised plaintext
  (`OutputInvolution`).
- The stepping rule holds, including the double step of the middle rotor.
- Every step, ring setting and position setting keeps each rotor's wiring a
  permutation of the alphabet.
- A letter is never encrypted to itself unless the reflector wires some
  letter to itself. None of the four historical reflectors does.

## Model

| member | source | states |
|---|---|---|
| Substitution.Translate | enigma/enigma.py:14-20 | the result is in the output alphabet; when the input alphabet has no repeats, it is the output symbol at the position of `msg` |
| Substitution.TranslateFirst | enigma/enigma.py:14-20 | whatever repeats the input alphabet has, the answer is the output symbol at the first position holding `msg` |
| Substitution.IndexOf | enigma/enigma.py:19 | the first position holding the symbol: it is there and at no earlier position |
| Substitution.Encode | enigma/enigma.py:22-25 | encoding a letter gives a symbol of the cipher (the one at the letter's alphabet position, by `EncodeDecodeAreLookups`) |
| Substitution.Decode | enigma/enigma.py:27-30 | decoding gives a letter, and the cipher holds the ciphertext symbol at that letter's alphabet position |
| Substitution.DecodeFirst | enigma/enigma.py:27-30 | that position is the first one holding the ciphertext symbol, as Python's `index` finds it: no earlier position holds it |
| Substitution.EncodeDecodeAreLookups | enigma/enigma.py:22-30 | `Encode` is the lookup from the alphabet into the cipher and `Decode` the lookup from the cipher into the alphabet |
| Substitution.DecodeEncode | enigma/enigma.py:22-30 | for a permutation, decoding an encoded letter gives the letter back |
| Substitution.EncodeDecode | enigma/enigma.py:22-30 | for a permutation, every letter can be decoded, and encoding the result gives the letter back |
| Substitution.InverseIsPermutation | enigma/enigma.py:143-150 | a wiring with a two-sided inverse table is a permutation of the alphabet |
| Substitution.InverseDecodes | enigma/enigma.py:27-30 | decoding through a permutation is encoding through its inverse table |
| Plugboards.Split | enigma/enigma.py:41 | the words of the wiring string are non-empty and hold no whitespace |
| Plugboards.SplitWord | enigma/enigma.py:41 | a non-empty string without whitespace is one word: the split is that string alone |
| Plugboards.SplitAtSpace | enigma/enigma.py:41 | a whitespace character always ends a word: splitting `a`, a whitespace character, then `b` gives the words of `a` followed by the words of `b` |
| Plugboards.SplitKeepsText | enigma/enigma.py:41 | the words laid end to end are the string with its whitespace removed |
| Plugboards.NewPlugboard | enigma/enigma.py:34-51 | succeeds exactly when every pair passes its checks; the board then holds each letter's partner; a failure reports the first failing pair's error |
| Plugboards.SwapPair | enigma/enigma.py:47-49 | a letter outside the alphabet is not found; otherwise the two letters trade places and no other entry changes |
| Plugboards.BoardPermutation | enigma/enigma.py:39-51 | a plugboard is a permutation, and encoding twice gives the letter back |
| Plugboards.BoardSymmetric | enigma/enigma.py:39-51 | decoding through a plugboard equals encoding through it |
| Plugboards.PartnerOfPair | enigma/enigma.py:41-49 | each pair's first letter is swapped with its second, and the second with the first |
| Plugboards.PartnerSeen | enigma/enigma.py:39-49 | a letter no pair uses is left in place; a letter some pair uses is swapped for a different used letter |
| Plugboards.PartnerInvolution | enigma/enigma.py:39-49 | swapping twice gives the letter back |
| Plugboards.NotOkAt | enigma/enigma.py:43-44 | one pair failing its checks makes the whole wiring fail |
| Rotors.LookUpBack | enigma/enigma.py:71-72 | the alphabet lookup one place back is the letter before, wrapping from 'a' to 'z' |
| Rotors.Step | enigma/enigma.py:67-74 | one turn keeps 26 letters of wiring, an offset in range and the turnover letters (the wiring itself is given by `RotatedAt`, the offset by `StepNRotation`) |
| Rotors.RotatedAt | enigma/enigma.py:67-74 | output i of the turned wiring is old output i + 1 (mod 26) moved back one letter |
| Rotors.RotatedPermutation | enigma/enigma.py:67-74 | turning keeps the wiring a permutation |
| Rotors.StepNAt | enigma/enigma.py:67-74 | after k turns, output i is old output (i + k) mod 26 moved back k letters |
| Rotors.StepNRotation | enigma/enigma.py:73 | after k turns the offset has advanced by k, modulo 26 |
| Rotors.StepNPeriod | enigma/enigma.py:67-74 | any multiple of 26 turns restores the wiring and the offset exactly |
| Rotors.StepNValid | enigma/enigma.py:67-74 | any number of turns keeps the wiring a permutation |
| Rotors.RingSet | enigma/enigma.py:61-65 | after a ring setting the offset is 0, the turnover letters are kept and the wiring still has 26 letters (its outputs are given by `RingSetAt`) |
| Rotors.RingSetAt | enigma/enigma.py:61-65 | ring setting n moves every output n places along the ring and n letters forward |
| Rotors.RingSetZero | enigma/enigma.py:61-65 | a ring setting that is a multiple of 26 leaves the wiring unchanged, with the offset at 0 |
| Rotors.RingSetValid | enigma/enigma.py:61-65 | a ring setting keeps the wiring a permutation |
| Rotors.SetTo | enigma/enigma.py:79-84 | after fewer than 26 turns the window shows the letter, and the turnover letters are unchanged |
| Rotors.StepTowards | enigma/enigma.py:83-84 | a rotor shows the letter exactly when no turns remain; otherwise one turn leaves one fewer |
| Rotors.Rotor.constructor | enigma/enigma.py:55-59 | the new rotor holds the wiring and turnover letters, calibrated by the ring setting |
| Rotors.Rotor.ApplyRingSetting | enigma/enigma.py:61-65 | the new state is the ring-set state, and the wiring stays a permutation |
| Rotors.ShiftEach | enigma/enigma.py:69-72 | the list built letter by letter holds each letter of the turned wiring moved one place back in the alphabet, in the same order |
| Rotors.Rotor.Rotate | enigma/enigma.py:67-74 | the new state is one turn on, and the wiring stays a permutation |
| Rotors.Rotor.GetPosition | enigma/enigma.py:76-77 | the window letter is the alphabet letter at the offset |
| Rotors.Rotor.SetPosition | enigma/enigma.py:79-84 | a non-letter is refused and leaves the rotor unchanged; a letter turns the rotor until its window shows that letter |
| Rotors.Rotor.TriggerRotation | enigma/enigma.py:86-87 | true exactly when the window letter is a turnover letter; nothing changes |
| Reflectors.NewReflector | enigma/enigma.py:91-95 | succeeds exactly when every letter passes the check; a failure reports the first failing letter |
| Reflectors.NotCheckedPast | enigma/enigma.py:93-95 | a letter failing the check keeps the cipher from passing |
| Reflectors.ReflectorInvolution | enigma/enigma.py:91-95 | a reflector that passes the check undoes itself: encoding twice gives the letter back |
| Reflectors.ReflectorPermutation | enigma/enigma.py:91-95 | a reflector that passes the check is a permutation |
| Reflectors.InvolutionIsReflector | enigma/enigma.py:91-95 | conversely, a permutation that undoes itself passes the check |
| Reflectors.SelfInverseIsReflector | enigma/enigma.py:151-156 | a wiring that is its own inverse table passes the check |
| Machine.StepRotors | enigma/enigma.py:111-119 | one key press keeps every wiring 26 letters and every offset in range |
| Machine.SteppingRule | enigma/enigma.py:111-119 | the right rotor always turns; the middle rotor turns exactly when it or the right rotor shows a turnover letter; the left rotor turns exactly when the middle rotor shows a turnover letter, whatever the right rotor shows |
| Machine.DoubleStep | enigma/enigma.py:111-119 | with the right rotor at turnover and the middle rotor one short of its own, the middle rotor turns twice in two presses and takes the left rotor with it the second time |
| Machine.RightRotorTurns | enigma/enigma.py:119 | whatever the middle and left rotors do, after n key presses the right rotor's state is exactly n single steps of its own |
| Machine.RightRotorCounts | enigma/enigma.py:119 | after n key presses the right rotor has advanced n places, modulo 26 |
| Machine.StepRotorsValid | enigma/enigma.py:111-119 | a key press keeps every wiring a permutation |
| Machine.StepRotorsNValid | enigma/enigma.py:111-119 | any number of key presses keeps every wiring a permutation |
| Machine.BackwardForward | enigma/enigma.py:126-130 | the way back through the rotors undoes the way in, and the way in undoes the way back |
| Machine.Signal | enigma/enigma.py:125-132 | the path of a letter through plugboard, rotors, reflector and back always ends on a letter |
| Machine.SignalInvolution | enigma/enigma.py:125-132 | with the rotors fixed, sending the output letter in gives the input letter back |
| Machine.SelfEncryption | enigma/enigma.py:125-132 | a letter is encrypted to itself only if some reflector contact is wired to itself |
| Machine.Sanitized | enigma/enigma.py:136-138 | the message keeps its length, and each character other than a lower-case letter becomes 'x' |
| Machine.Output | enigma/enigma.py:134-140 | a processed message has exactly as many characters as the message |
| Machine.OutputAt | enigma/enigma.py:134-140 | output letter i is the machine's answer to the sanitised letter i after i + 1 key presses |
| Machine.OutputInvolution | enigma/enigma.py:134-140 | a machine started from the same rotor states turns the output back into the sanitised message |
| Machine.PressInvolution | enigma/enigma.py:121-132 | typing the answer at the same key press gives back the sanitised letter |
| Machine.OutputOfSanitized | enigma/enigma.py:136-138 | only the sanitised message matters to the output |
| Machine.Positions | enigma/enigma.py:104-105 | one window letter per rotor, each the letter at that rotor's offset |
| Machine.SetPositions | enigma/enigma.py:107-109 | setting positions keeps the number of rotors and every rotor well formed (which rotors move is given by `SetPositionsAt`) |
| Machine.SetPositionsAt | enigma/enigma.py:107-109 | rotor i is turned to letter i when that character and every one before it are letters; otherwise it is left alone |
| Machine.SetThenShow | enigma/enigma.py:104-109 | setting one letter per rotor makes the windows show exactly those letters |
| Machine.SetPositionsValid | enigma/enigma.py:107-109 | setting the positions keeps every wiring a permutation |
| Machine.Enigma.constructor | enigma/enigma.py:99-102 | the machine holds the given reflector, rotors and plugboard |
| Machine.Enigma.GetPosition | enigma/enigma.py:104-105 | the window letters of the rotors, left to right |
| Machine.Enigma.SetPosition | enigma/enigma.py:107-109 | the rotors end as `SetPositions` of their old states; the result is true exactly when the supplied letters for the three rotors are all letters |
| Machine.Enigma.SetRotor | enigma/enigma.py:108-109 | only rotor i changes: it is turned to the letter, or left alone for a non-letter |
| Machine.Enigma.Rotate | enigma/enigma.py:111-119 | the rotors step as the stepping rule says, and stay valid |
| Machine.Enigma.EncodeDecode | enigma/enigma.py:121-132 | the rotors step once, then a letter goes through the signal path for the new rotor states; a non-letter is not found |
| Machine.Enigma.ProcessMessage | enigma/enigma.py:134-140 | the result is `Output` of the starting rotor states, and the rotors end one key press per character on |
| Machine.SendThrough | enigma/enigma.py:125-131 | the letter threaded through the plugboard, the rotors from right to left, the reflector, the rotors from left to right and the plugboard again is `Signal` |
| Wirings.RotorIPermutation | enigma/enigma.py:143 | rotor I's wiring is a permutation, and its table is decoding through it |
| Wirings.RotorIIPermutation | enigma/enigma.py:144 | rotor II's wiring is a permutation, and its table is decoding through it |
| Wirings.RotorIIIPermutation | enigma/enigma.py:145 | rotor III's wiring is a permutation, and its table is decoding through it |
| Wirings.RotorIVPermutation | enigma/enigma.py:146 | rotor IV's wiring is a permutation, and its table is decoding through it |
| Wirings.RotorVPermutation | enigma/enigma.py:147 | rotor V's wiring is a permutation, and its table is decoding through it |
| Wirings.RotorVIPermutation | enigma/enigma.py:148 | rotor VI's wiring is a permutation, and its table is decoding through it |
| Wirings.RotorVIIPermutation | enigma/enigma.py:149 | rotor VII's wiring is a permutation, and its table is decoding through it |
| Wirings.RotorVIIIPermutation | enigma/enigma.py:150 | rotor VIII's wiring is a permutation, and its table is decoding through it |
| Wirings.ReflectorBValid | enigma/enigma.py:151 | reflector B passes the reflector check and wires no letter to itself |
| Wirings.ReflectorBThinValid | enigma/enigma.py:152-153 | the thin reflector B passes the reflector check and wires no letter to itself |
| Wirings.ReflectorCValid | enigma/enigma.py:154 | reflector C passes the reflector check and wires no letter to itself |
| Wirings.ReflectorCThinValid | enigma/enigma.py:155-156 | the thin reflector C passes the reflector check and wires no letter to itself |

## Left out

- The demo block at the end of the file is left out. It does printing and a fixed demonstration setup.
- `__repr__` and `__str__` are left out: they only format strings.
- `Enigma.rotate` reads the module-level list `enigma_rotors`, which exists only when the file runs as a script. The model steps the machine's own three rotors instead.
- The module-level rotor objects shared between machines are not modelled. The wirings are constants, and each `Rotor` is built from one.
- Aliasing is not modelled. A machine requires three distinct rotor objects.
- Machine.Enigma.constructor requires exactly three rotors. The source accepts any list, but its stepping rule only makes sense for three.
- Rotors.Rotor.constructor requires the wiring to be a permutation. The source never checks this.
- Rotors.Rotor.SetPosition takes a single character. In the source, `letter in alphabet` is a substring test, so `""` or `"ab"` pass it and then loop forever. That case is not modelled.
- Substitution.Translate takes one character, and the two alphabets must have equal length. These are the source's `assert` statements, stated as preconditions.
- Substitution.Translate requires `msg` to be in the input alphabet. In the source, `index` raises otherwise.
- Substitution.Decode requires the letter to be in the cipher. In the source, `index` raises otherwise.
- Substitution.Encode requires a letter of the alphabet. In the source, `index` on the alphabet raises otherwise.
- Python exceptions are modelled as results. The `ValueError` from the plugboard, the rotor and the reflector becomes an `Err` value or a `false` result. Unpacking a token that is not two characters becomes `MalformedPair`. A failed `index` on a non-letter becomes `NotFound`.
- The reflector check accepts wirings that wire a letter to itself, the identity included. So Machine.SelfEncryption proves "no letter encrypts to itself" only for reflectors without such a contact. All four historical reflectors are shown to have none.
- Machine.Enigma.EncodeDecode steps the rotors and then reports `NotFound` for a non-letter. In the source this call raises after the rotors have stepped. Machine.Enigma.ProcessMessage never meets this case, because it sanitises first.
