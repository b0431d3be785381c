/**
 * The machine: a plugboard, three rotors (left, middle, right) and a
 * reflector. Before each letter the rotors step; the letter then passes
 * through the plugboard, the rotors from right to left, the reflector, the
 * rotors from left to right and the plugboard again.
 */
module Machine {
  import opened Errors
  import opened Substitution
  import opened Rotors
  import opened Reflectors
  import opened Modular

  /** Every rotor has 26 letters of wiring and an offset in range. */
  predicate AllWellFormed(rs: seq<RotorState>) {
    forall i | 0 <= i < |rs| :: WellFormed(rs[i])
  }

  /** Three rotors, left to right, each with 26 letters of wiring and an offset in range. */
  predicate Shaped(rs: seq<RotorState>) {
    |rs| == 3 && AllWellFormed(rs)
  }

  /** Three rotors, left to right, each with a permuted wiring. */
  ghost predicate ValidRotors(rs: seq<RotorState>) {
    |rs| == 3 && ValidState(rs[0]) && ValidState(rs[1]) && ValidState(rs[2])
  }

  /**
   * One key press: the middle rotor at a turnover letter steps the left
   * rotor and itself; the right rotor at a turnover letter steps the middle
   * one; the right rotor always steps.
   */
  function StepRotors(rs: seq<RotorState>): (r: seq<RotorState>)
    requires Shaped(rs)
    ensures Shaped(r)
  {
    var rotate1 := Trigger(rs[1]);
    var rotate2 := Trigger(rs[2]) || rotate1;
    [ if rotate1 then Step(rs[0]) else rs[0],
      if rotate2 then Step(rs[1]) else rs[1],
      Step(rs[2]) ]
  }

  lemma StepValid(s: RotorState)
    requires ValidState(s)
    ensures ValidState(Step(s))
  {
    RotatedPermutation(s.cipher);
  }

  /** Stepping keeps every wiring a permutation. */
  lemma StepRotorsValid(rs: seq<RotorState>)
    requires ValidRotors(rs)
    ensures ValidRotors(StepRotors(rs))
  {
    StepValid(rs[0]);
    StepValid(rs[1]);
    StepValid(rs[2]);
  }

  /** `n` key presses. */
  function StepRotorsN(rs: seq<RotorState>, n: nat): (r: seq<RotorState>)
    requires Shaped(rs)
    ensures Shaped(r)
  {
    if n == 0 then rs else StepRotors(StepRotorsN(rs, n - 1))
  }

  lemma StepRotorsNValid(rs: seq<RotorState>, n: nat)
    requires ValidRotors(rs)
    ensures ValidRotors(StepRotorsN(rs, n))
  {
    var k := 0;
    while k < n
      invariant 0 <= k <= n && ValidRotors(StepRotorsN(rs, k))
    {
      PressValid(rs, k);
      k := k + 1;
    }
  }

  lemma PressValid(rs: seq<RotorState>, k: nat)
    requires Shaped(rs) && ValidRotors(StepRotorsN(rs, k))
    ensures ValidRotors(StepRotorsN(rs, k + 1))
  {
    StepRotorsValid(StepRotorsN(rs, k));
  }

  /** Every wiring in the list is a permutation. */
  predicate AllPermutations(cs: seq<seq<char>>) {
    cs == [] || (IsPermutation(cs[0]) && AllPermutations(cs[1..]))
  }

  lemma {:induction false} AllPermutationsDrop(cs: seq<seq<char>>, i: int)
    requires AllPermutations(cs) && 0 <= i <= |cs|
    ensures AllPermutations(cs[i..])
    decreases |cs|
  {
    if i > 0 {
      AllPermutationsDrop(cs[1..], i - 1);
      assert cs[1..][i - 1..] == cs[i..];
    }
  }

  /** The rotors' wirings, left to right. */
  function Ciphers(rs: seq<RotorState>): (cs: seq<seq<char>>)
    requires ValidRotors(rs)
    ensures AllPermutations(cs)
  {
    var cs := [rs[0].cipher, rs[1].cipher, rs[2].cipher];
    assert cs[1..] == [rs[1].cipher, rs[2].cipher];
    assert cs[1..][1..] == [rs[2].cipher];
    assert cs[1..][1..][1..] == [];
    assert AllPermutations(cs[1..][1..]);
    cs
  }

  /** The letter's way in: through the wirings from the last (rightmost) to the first. */
  function Forward(cs: seq<seq<char>>, c: char): (r: char)
    requires AllPermutations(cs) && IsLetter(c)
    ensures IsLetter(r)
  {
    if cs == [] then c else Encode(cs[0], Forward(cs[1..], c))
  }

  /** The letter's way back: through the wirings from the first (leftmost) to the last. */
  function Backward(cs: seq<seq<char>>, c: char): (r: char)
    requires AllPermutations(cs) && IsLetter(c)
    ensures IsLetter(r)
  {
    if cs == [] then c
    else
      LetterInPermutation(cs[0], c);
      Backward(cs[1..], Decode(cs[0], c))
  }

  /** The way back undoes the way in, and the way in undoes the way back. */
  lemma {:induction false} BackwardForward(cs: seq<seq<char>>, c: char)
    requires AllPermutations(cs) && IsLetter(c)
    ensures Backward(cs, Forward(cs, c)) == c
    ensures Forward(cs, Backward(cs, c)) == c
    decreases |cs|
  {
    if cs != [] {
      var x := Forward(cs[1..], c);
      DecodeEncode(cs[0], x);
      BackwardForward(cs[1..], c);
      EncodeDecode(cs[0], c);
      BackwardForward(cs[1..], Decode(cs[0], c));
    }
  }

  /** The machine's wiring, once the rotors have stepped: plugboard, rotors, reflector, rotors, plugboard. */
  function Signal(cs: seq<seq<char>>, reflector: seq<char>, plugboard: seq<char>, c: char): (r: char)
    requires AllPermutations(cs) && IsReflectorWiring(reflector) && IsPermutation(plugboard) && IsLetter(c)
    ensures IsLetter(r)
  {
    ReflectorPermutation(reflector);
    var d := Backward(cs, Encode(reflector, Forward(cs, Encode(plugboard, c))));
    LetterInPermutation(plugboard, d);
    Decode(plugboard, d)
  }

  /** With the rotors where they are, the wiring undoes itself: sending the output in gives the input back. */
  lemma SignalInvolution(cs: seq<seq<char>>, reflector: seq<char>, plugboard: seq<char>, c: char)
    requires AllPermutations(cs) && IsReflectorWiring(reflector) && IsPermutation(plugboard) && IsLetter(c)
    ensures Signal(cs, reflector, plugboard, Signal(cs, reflector, plugboard, c)) == c
  {
    ReflectorPermutation(reflector);
    var a := Encode(plugboard, c);
    DecodeEncode(plugboard, c);
    var b := Forward(cs, a);
    ReflectorInvolution(reflector, b);
    var m := Encode(reflector, b);
    var d := Backward(cs, m);
    EncodeDecode(plugboard, d);
    var out := Decode(plugboard, d);
    assert Encode(plugboard, out) == d;
    BackwardForward(cs, m);
    assert Forward(cs, d) == m;
    assert Encode(reflector, m) == b;
    BackwardForward(cs, a);
  }

  /**
   * A letter can be encrypted to itself only through a reflector contact
   * wired to itself; a reflector without one never encrypts a letter to itself.
   */
  lemma SelfEncryption(cs: seq<seq<char>>, reflector: seq<char>, plugboard: seq<char>, c: char)
    requires AllPermutations(cs) && IsReflectorWiring(reflector) && IsPermutation(plugboard) && IsLetter(c)
    ensures Signal(cs, reflector, plugboard, c) == c ==> HasFixedPoint(reflector)
  {
    ReflectorPermutation(reflector);
    var a := Encode(plugboard, c);
    var b := Forward(cs, a);
    var m := Encode(reflector, b);
    var d := Backward(cs, m);
    EncodeDecode(plugboard, d);
    if Decode(plugboard, d) == c {
      assert d == a;
      BackwardForward(cs, m);
      assert m == b;
      ChrOrd(b);
      assert reflector[Ord(b)] == Chr(Ord(b));
    }
  }

  /** Anything that is not a lower-case letter is typed as 'x'. */
  function Sanitize(c: char): (r: char)
    ensures IsLetter(r) && (IsLetter(c) ==> r == c) && (!IsLetter(c) ==> r == 'x')
  {
    if 'a' <= c <= 'z' then c else 'x'
  }

  function Sanitized(msg: string): (r: string)
    ensures |r| == |msg| && forall i | 0 <= i < |msg| :: r[i] == Sanitize(msg[i])
  {
    if msg == [] then [] else [Sanitize(msg[0])] + Sanitized(msg[1..])
  }

  /** The machine's answer to one key press: the letter typed after the rotors have stepped n times in all. */
  function Press(rs: seq<RotorState>, reflector: seq<char>, plugboard: seq<char>, n: nat, c: char): (r: char)
    requires ValidRotors(rs) && IsReflectorWiring(reflector) && IsPermutation(plugboard)
    ensures IsLetter(r)
  {
    StepRotorsNValid(rs, n);
    Signal(Ciphers(StepRotorsN(rs, n)), reflector, plugboard, Sanitize(c))
  }

  /**
   * What `process_message` returns: character i of the message is typed
   * (sanitised) after i + 1 key presses have stepped the rotors.
   */
  function Output(rs: seq<RotorState>, reflector: seq<char>, plugboard: seq<char>, msg: string): (r: string)
    requires ValidRotors(rs) && IsReflectorWiring(reflector) && IsPermutation(plugboard)
    ensures |r| == |msg|
  {
    if msg == [] then []
    else Output(rs, reflector, plugboard, msg[..|msg| - 1]) + [Press(rs, reflector, plugboard, |msg|, msg[|msg| - 1])]
  }

  /** The answer to key press n + 1 is the signal through the rotors as they stand after it. */
  lemma PressAfter(rs: seq<RotorState>, reflector: seq<char>, plugboard: seq<char>, n: nat, c: char,
                   before: seq<RotorState>, after: seq<RotorState>)
    requires ValidRotors(rs) && IsReflectorWiring(reflector) && IsPermutation(plugboard)
    requires before == StepRotorsN(rs, n) && after == StepRotors(before)
    ensures ValidRotors(after)
    ensures Press(rs, reflector, plugboard, n + 1, c) == Signal(Ciphers(after), reflector, plugboard, Sanitize(c))
  {
    StepRotorsNValid(rs, n + 1);
  }

  /** Output for a longer message extends the output for its first part. */
  lemma OutputAppend(rs: seq<RotorState>, reflector: seq<char>, plugboard: seq<char>, msg: string, c: char)
    requires ValidRotors(rs) && IsReflectorWiring(reflector) && IsPermutation(plugboard)
    ensures Output(rs, reflector, plugboard, msg + [c]) ==
      Output(rs, reflector, plugboard, msg) + [Press(rs, reflector, plugboard, |msg| + 1, c)]
  {
    assert (msg + [c])[..|msg|] == msg;
  }

  /** Each output letter is the machine's answer to that key press. */
  lemma {:induction false} OutputAt(rs: seq<RotorState>, reflector: seq<char>, plugboard: seq<char>, msg: string, i: int)
    requires ValidRotors(rs) && IsReflectorWiring(reflector) && IsPermutation(plugboard)
    requires 0 <= i < |msg|
    ensures Output(rs, reflector, plugboard, msg)[i] == Press(rs, reflector, plugboard, i + 1, msg[i])
    decreases |msg|
  {
    if i < |msg| - 1 {
      OutputAt(rs, reflector, plugboard, msg[..|msg| - 1], i);
    }
  }

  /**
   * Decryption is encryption: a machine set up as it was for encryption
   * turns the ciphertext back into the (sanitised) plaintext.
   */
  lemma OutputInvolution(rs: seq<RotorState>, reflector: seq<char>, plugboard: seq<char>, msg: string)
    requires ValidRotors(rs) && IsReflectorWiring(reflector) && IsPermutation(plugboard)
    ensures Output(rs, reflector, plugboard, Output(rs, reflector, plugboard, msg)) == Sanitized(msg)
  {
    var out := Output(rs, reflector, plugboard, msg);
    forall i | 0 <= i < |msg|
      ensures Output(rs, reflector, plugboard, out)[i] == Sanitized(msg)[i]
    {
      OutputAt(rs, reflector, plugboard, msg, i);
      OutputAt(rs, reflector, plugboard, out, i);
      PressInvolution(rs, reflector, plugboard, i + 1, msg[i]);
    }
  }

  /** Typing the answer at the same key press gives back the (sanitised) letter typed. */
  lemma PressInvolution(rs: seq<RotorState>, reflector: seq<char>, plugboard: seq<char>, n: nat, c: char)
    requires ValidRotors(rs) && IsReflectorWiring(reflector) && IsPermutation(plugboard)
    ensures Press(rs, reflector, plugboard, n, Press(rs, reflector, plugboard, n, c)) == Sanitize(c)
  {
    StepRotorsNValid(rs, n);
    var cs := Ciphers(StepRotorsN(rs, n));
    SignalInvolution(cs, reflector, plugboard, Sanitize(c));
  }

  /** Only the sanitised message matters. */
  lemma OutputOfSanitized(rs: seq<RotorState>, reflector: seq<char>, plugboard: seq<char>, msg: string)
    requires ValidRotors(rs) && IsReflectorWiring(reflector) && IsPermutation(plugboard)
    ensures Output(rs, reflector, plugboard, msg) == Output(rs, reflector, plugboard, Sanitized(msg))
  {
    forall i | 0 <= i < |msg|
      ensures Output(rs, reflector, plugboard, msg)[i] == Output(rs, reflector, plugboard, Sanitized(msg))[i]
    {
      OutputAt(rs, reflector, plugboard, msg, i);
      OutputAt(rs, reflector, plugboard, Sanitized(msg), i);
    }
  }

  /** The right rotor turns once per key press, whatever the others do. */
  lemma {:induction false} RightRotorTurns(rs: seq<RotorState>, n: nat)
    requires Shaped(rs)
    ensures StepRotorsN(rs, n)[2] == StepN(rs[2], n)
    decreases n
  {
    if n > 0 {
      RightRotorTurns(rs, n - 1);
      RightRotorSteps(StepRotorsN(rs, n - 1));
    }
  }

  /** After n key presses the right rotor has advanced n places. */
  lemma RightRotorCounts(rs: seq<RotorState>, n: nat)
    requires Shaped(rs)
    ensures StepRotorsN(rs, n)[2].rotation == (rs[2].rotation + n) % 26
  {
    RightRotorTurns(rs, n);
    StepNRotation(rs[2], n);
  }

  lemma RightRotorSteps(rs: seq<RotorState>)
    requires Shaped(rs)
    ensures StepRotors(rs)[2] == Step(rs[2])
  {
  }

  /**
   * Which rotors move on a key press, in terms of the window letters: the
   * left rotor exactly when the middle one shows a turnover letter, the
   * middle one exactly when it or the right rotor does.
   */
  lemma SteppingRule(rs: seq<RotorState>)
    requires Shaped(rs)
    ensures StepRotors(rs)[2].rotation == (rs[2].rotation + 1) % 26
    ensures StepRotors(rs)[1].rotation != rs[1].rotation <==>
      (Position(rs[1]) in rs[1].turnover || Position(rs[2]) in rs[2].turnover)
    ensures StepRotors(rs)[0].rotation != rs[0].rotation <==> Position(rs[1]) in rs[1].turnover
  {
  }

  /**
   * The double step: when the right rotor shows its turnover letter and the
   * middle rotor is one step short of its own, the middle rotor steps on this
   * key press and again on the next, taking the left rotor with it.
   */
  lemma DoubleStep(rs: seq<RotorState>)
    requires Shaped(rs)
    requires Trigger(rs[2]) && !Trigger(rs[1]) && Trigger(Step(rs[1]))
    ensures StepRotorsN(rs, 1)[0] == rs[0] && StepRotorsN(rs, 1)[1] == Step(rs[1])
    ensures StepRotorsN(rs, 2)[0] == Step(rs[0]) && StepRotorsN(rs, 2)[1] == Step(Step(rs[1]))
    ensures StepRotorsN(rs, 2)[2] == Step(Step(rs[2]))
  {
    assert StepRotorsN(rs, 1) == StepRotors(rs);
    assert StepRotorsN(rs, 2) == StepRotors(StepRotors(rs));
  }

  lemma ShapedWellFormed(rs: seq<RotorState>)
    requires ValidRotors(rs)
    ensures Shaped(rs) && AllWellFormed(rs)
  {
  }

  /** The letters in the rotors' windows, left to right. */
  function Positions(rs: seq<RotorState>): (p: string)
    requires AllWellFormed(rs)
    ensures |p| == |rs| && forall i | 0 <= i < |rs| :: IsLetter(p[i]) && Ord(p[i]) == rs[i].rotation
  {
    if rs == [] then [] else [Position(rs[0])] + Positions(rs[1..])
  }

  /** How many characters at the start of `s`, at most m of them, are letters. */
  function Leading(s: string, m: nat): (n: nat)
    ensures n <= m && n <= |s|
    ensures forall k | 0 <= k < n :: IsLetter(s[k])
    ensures n < m && n < |s| ==> !IsLetter(s[n])
  {
    if m == 0 || s == [] || !IsLetter(s[0]) then 0 else 1 + Leading(s[1..], m - 1)
  }

  lemma LeadingGrows(s: string, m: nat, i: nat)
    requires i <= Leading(s, m) && i < m && i < |s| && IsLetter(s[i])
    ensures i + 1 <= Leading(s, m)
  {
  }

  /** The first n rotors turned to their letters, the others as they were. */
  function SetFirst(rs: seq<RotorState>, letters: string, n: nat): (r: seq<RotorState>)
    requires AllWellFormed(rs) && n <= |rs| && n <= |letters|
    requires forall k | 0 <= k < n :: IsLetter(letters[k])
    ensures |r| == |rs| && AllWellFormed(r)
  {
    if n == 0 then rs else SetFirst(rs, letters, n - 1)[n - 1 := SetTo(rs[n - 1], letters[n - 1])]
  }

  lemma {:induction false} SetFirstAt(rs: seq<RotorState>, letters: string, n: nat, i: int)
    requires AllWellFormed(rs) && n <= |rs| && n <= |letters|
    requires forall k | 0 <= k < n :: IsLetter(letters[k])
    requires 0 <= i < |rs|
    ensures SetFirst(rs, letters, n)[i] == if i < n then SetTo(rs[i], letters[i]) else rs[i]
    decreases n
  {
    if n > 0 && i != n - 1 {
      SetFirstAt(rs, letters, n - 1, i);
    }
  }

  /**
   * What `set_position` does to the rotors: rotor and letter are paired off
   * while both last, and each rotor is turned to its letter, until a
   * character that is not a letter stops the setting; the rotors before it
   * stay set.
   */
  function SetPositions(rs: seq<RotorState>, letters: string): (r: seq<RotorState>)
    requires AllWellFormed(rs)
    ensures |r| == |rs| && AllWellFormed(r)
  {
    SetFirst(rs, letters, Leading(letters, |rs|))
  }

  /**
   * Rotor i is turned to letter i when that character and every one before
   * it are letters, and is left alone otherwise.
   */
  lemma SetPositionsAt(rs: seq<RotorState>, letters: string, i: int)
    requires AllWellFormed(rs)
    requires 0 <= i < |rs|
    ensures SetPositions(rs, letters)[i] ==
      if i < |letters| && (forall k | 0 <= k <= i :: IsLetter(letters[k])) then SetTo(rs[i], letters[i]) else rs[i]
  {
    var n := Leading(letters, |rs|);
    SetFirstAt(rs, letters, n, i);
    if i >= n && i < |letters| {
      assert !IsLetter(letters[n]);
    }
  }

  /** Setting a letter for every rotor makes the windows show those letters. */
  lemma SetThenShow(rs: seq<RotorState>, letters: string)
    requires AllWellFormed(rs)
    requires |letters| == |rs| && AllLetters(letters)
    ensures Positions(SetPositions(rs, letters)) == letters
  {
    forall i | 0 <= i < |rs|
      ensures Positions(SetPositions(rs, letters))[i] == letters[i]
    {
      SetShows(rs, letters, i);
    }
  }

  lemma SetShows(rs: seq<RotorState>, letters: string, i: int)
    requires AllWellFormed(rs)
    requires |letters| == |rs| && AllLetters(letters) && 0 <= i < |rs|
    ensures Positions(SetPositions(rs, letters))[i] == letters[i]
  {
    SetFirstAt(rs, letters, |rs|, i);
    var p := Positions(SetPositions(rs, letters));
    assert Ord(p[i]) == Ord(letters[i]);
    ChrOrd(p[i]);
    ChrOrd(letters[i]);
  }

  /** Setting keeps every wiring a permutation. */
  lemma SetPositionsValid(rs: seq<RotorState>, letters: string)
    requires ValidRotors(rs)
    ensures ValidRotors(SetPositions(rs, letters))
  {
    var n := Leading(letters, 3);
    forall i | 0 <= i < 3
      ensures ValidState(SetPositions(rs, letters)[i])
    {
      SetFirstAt(rs, letters, n, i);
      if i < n {
        StepNValid(rs[i], StepsTo(rs[i].rotation, letters[i]));
      }
    }
  }

  /** The machine: a reflector, three distinct rotors (left to right) and a plugboard. */
  class Enigma {
    const reflector: seq<char>
    const rotors: seq<Rotor>
    const plugboard: seq<char>

    ghost predicate Valid()
      reads this, rotors
    {
      && |rotors| == 3
      && rotors[0] != rotors[1] && rotors[0] != rotors[2] && rotors[1] != rotors[2]
      && rotors[0].Valid() && rotors[1].Valid() && rotors[2].Valid()
      && IsReflectorWiring(reflector) && IsPermutation(plugboard)
    }

    /** The rotors' states, left to right. */
    function States(): (rs: seq<RotorState>)
      reads this, rotors
      requires |rotors| == 3
      ensures |rs| == 3
    {
      [rotors[0].State(), rotors[1].State(), rotors[2].State()]
    }

    lemma ValidStates()
      requires Valid()
      ensures ValidRotors(States())
    {
    }

    constructor (reflector: seq<char>, rotors: seq<Rotor>, plugboard: seq<char>)
      requires |rotors| == 3
      requires rotors[0] != rotors[1] && rotors[0] != rotors[2] && rotors[1] != rotors[2]
      requires rotors[0].Valid() && rotors[1].Valid() && rotors[2].Valid()
      requires IsReflectorWiring(reflector) && IsPermutation(plugboard)
      ensures Valid()
      ensures this.reflector == reflector && this.rotors == rotors && this.plugboard == plugboard
    {
      this.reflector := reflector;
      this.rotors := rotors;
      this.plugboard := plugboard;
    }

    /** The letters in the windows, left to right. */
    method GetPosition() returns (p: string)
      requires Valid()
      ensures p == Positions(States())
    {
      p := [];
      for i := 0 to 3
        invariant p == Positions(States()[..i])
      {
        var l := rotors[i].GetPosition();
        PositionsAppend(States()[..i], rotors[i].State());
        assert States()[..i + 1] == States()[..i] + [rotors[i].State()];
        p := p + [l];
      }
      assert States()[..3] == States();
    }

    /**
     * Turn each rotor to its letter, left to right. A character that is not
     * a letter stops the setting and is reported by returning false.
     */
    method SetPosition(letters: string) returns (ok: bool)
      requires Valid()
      modifies rotors
      ensures Valid()
      ensures States() == SetPositions(old(States()), letters)
      ensures ok <==> forall k | 0 <= k < 3 && k < |letters| :: IsLetter(letters[k])
    {
      ghost var start := States();
      ValidStates();
      ShapedWellFormed(start);
      var n := if |letters| < 3 then |letters| else 3;
      for i := 0 to n
        invariant Valid()
        invariant i <= Leading(letters, 3)
        invariant States() == SetFirst(start, letters, i)
      {
        SetFirstAt(start, letters, i, i);
        var turned := SetRotor(i, letters[i]);
        if !turned {
          assert Leading(letters, 3) == i;
          return false;
        }
        LeadingGrows(letters, 3, i);
      }
      assert Leading(letters, 3) == n;
      ok := true;
    }

    /** Turn rotor i to a letter; the other rotors do not move. */
    method SetRotor(i: int, letter: char) returns (ok: bool)
      requires Valid() && 0 <= i < 3
      modifies rotors[i]
      ensures Valid()
      ensures ok == IsLetter(letter)
      ensures States() == old(States())[i := if ok then SetTo(old(States())[i], letter) else old(States())[i]]
    {
      ok := rotors[i].SetPosition(letter);
    }

    /** One key press: step the rotors as `StepRotors` describes. */
    method Rotate()
      requires Valid()
      modifies rotors
      ensures Valid()
      ensures States() == StepRotors(old(States()))
    {
      var rotate1 := rotors[1].TriggerRotation();
      var rotate2 := rotors[2].TriggerRotation();
      rotate2 := rotate2 || rotate1;
      if rotate1 {
        rotors[0].Rotate();
      }
      if rotate2 {
        rotors[1].Rotate();
      }
      rotors[2].Rotate();
    }

    /**
     * Step the rotors, then send one letter through the machine. A
     * character that is not a letter is not found on the plugboard, after
     * the rotors have stepped.
     */
    method EncodeDecode(letter: char) returns (r: Result<char>)
      requires Valid()
      modifies rotors
      ensures Valid()
      ensures States() == StepRotors(old(States()))
      ensures r == if IsLetter(letter) then Ok(Signal(Ciphers(States()), reflector, plugboard, letter)) else Err(NotFound(letter))
    {
      Rotate();
      if !IsLetter(letter) {
        return Err(NotFound(letter));
      }
      var cs := [rotors[0].cipher, rotors[1].cipher, rotors[2].cipher];
      assert cs == Ciphers(States());
      var l := SendThrough(cs, reflector, plugboard, letter);
      return Ok(l);
    }

    /**
     * Encrypt (or, the machine being its own inverse, decrypt) a message,
     * typing 'x' for anything that is not a lower-case letter.
     */
    method ProcessMessage(message: string) returns (output: string)
      requires Valid()
      modifies rotors
      ensures Valid()
      ensures output == Output(old(States()), reflector, plugboard, message)
      ensures States() == StepRotorsN(old(States()), |message|)
    {
      ghost var start := States();
      output := [];
      for i := 0 to |message|
        invariant Valid()
        invariant States() == StepRotorsN(start, i)
        invariant output == Output(start, reflector, plugboard, message[..i])
      {
        PrefixExtend(message, i);
        OutputAppend(start, reflector, plugboard, message[..i], message[i]);
        var letter := message[i];
        if !('a' <= letter <= 'z') {
          letter := 'x';
        }
        ghost var before := States();
        var r := EncodeDecode(letter);
        PressAfter(start, reflector, plugboard, i, message[i], before, States());
        output := output + [r.value];
      }
      assert message[..|message|] == message;
    }
  }

  /**
   * The letter's path through the machine, as `encode_decode` takes it:
   * plugboard, each rotor from right to left, reflector, each rotor from
   * left to right, plugboard again.
   */
  method SendThrough(cs: seq<seq<char>>, reflector: seq<char>, plugboard: seq<char>, letter: char) returns (l: char)
    requires AllPermutations(cs) && IsReflectorWiring(reflector) && IsPermutation(plugboard) && IsLetter(letter)
    ensures l == Signal(cs, reflector, plugboard, letter)
  {
    l := Encode(plugboard, letter);
    ghost var entry := l;
    AllPermutationsDrop(cs, |cs|);
    var i := |cs|;
    while i > 0
      invariant 0 <= i <= |cs| && IsLetter(l) && AllPermutations(cs[i..])
      invariant l == Forward(cs[i..], entry)
    {
      i := i - 1;
      AllPermutationsDrop(cs, i);
      assert cs[i..][1..] == cs[i + 1..];
      l := Encode(cs[i], l);
    }
    ReflectorPermutation(reflector);
    l := Encode(reflector, l);
    ghost var turn := l;
    for j := 0 to |cs|
      invariant IsLetter(l) && AllPermutations(cs[j..])
      invariant Backward(cs[j..], l) == Backward(cs, turn)
    {
      assert cs[j..][1..] == cs[j + 1..];
      LetterInPermutation(cs[j], l);
      l := Decode(cs[j], l);
    }
    assert cs[|cs|..] == [];
    LetterInPermutation(plugboard, l);
    l := Decode(plugboard, l);
  }

  lemma PrefixExtend(s: string, i: int)
    requires 0 <= i < |s|
    ensures s[..i + 1] == s[..i] + [s[i]]
  {
    assert s[..i + 1] == s[..i] + [s[i]];
  }

  lemma {:induction false} PositionsAppend(rs: seq<RotorState>, s: RotorState)
    requires AllWellFormed(rs) && WellFormed(s)
    ensures Positions(rs + [s]) == Positions(rs) + [Position(s)]
    decreases |rs|
  {
    if rs != [] {
      assert (rs + [s])[1..] == rs[1..] + [s];
      PositionsAppend(rs[1..], s);
    }
  }
}
