/**
 * A rotor: a substitution cipher whose wiring changes as it turns. The
 * value-level `RotorState` and the functions on it specify the class `Rotor`,
 * whose methods update its fields in place.
 */
module Rotors {
  import opened Substitution
  import opened Modular

  /** What a rotor holds: its current wiring, how far it has turned and its turnover letters. */
  datatype RotorState = RotorState(cipher: seq<char>, rotation: int, turnover: set<char>)

  /** 26 letters of wiring and an offset in range: what every step needs. */
  predicate WellFormed(s: RotorState) {
    IsWiring(s.cipher) && 0 <= s.rotation < 26
  }

  /** A rotor whose wiring is a permutation of the alphabet. */
  ghost predicate ValidState(s: RotorState) {
    WellFormed(s) && IsPermutation(s.cipher)
  }

  /** One letter back in the alphabet, wrapping from 'a' to 'z'. */
  function ShiftBack(l: char): (r: char)
    requires IsLetter(l)
    ensures IsLetter(r) && Ord(r) == (Ord(l) - 1) % 26
  {
    Chr((Ord(l) - 1) % 26)
  }

  /** The rotor's own computation, a lookup in the alphabet one place back, is `ShiftBack`. */
  lemma ShiftBackByLookup(l: char)
    requires IsLetter(l)
    ensures l in Alphabet && 0 <= (IndexOf(Alphabet, l) - 1) % 26 < |Alphabet|
    ensures Alphabet[(IndexOf(Alphabet, l) - 1) % 26] == ShiftBack(l)
  {
    IndexOfAlphabet(l);
    AlphabetAt((Ord(l) - 1) % 26);
  }

  /** The letter one place back, found as the rotor finds it: by its index in the alphabet. */
  method LookUpBack(letter: char) returns (r: char)
    requires IsLetter(letter)
    ensures r == ShiftBack(letter)
  {
    ShiftBackByLookup(letter);
    var pos := (IndexOf(Alphabet, letter) - 1) % 26;
    r := Alphabet[pos];
  }

  /** Distinct letters stay distinct when moved back. */
  lemma ShiftBackDistinct(a: char, b: char)
    requires IsLetter(a) && IsLetter(b) && a != b
    ensures ShiftBack(a) != ShiftBack(b)
  {
    assert Ord(a) != Ord(b);
  }

  /** Each letter moved back by one. */
  function ShiftAll(s: seq<char>): (r: seq<char>)
    requires AllLetters(s)
    ensures |r| == |s| && AllLetters(r)
  {
    if s == [] then [] else [ShiftBack(s[0])] + ShiftAll(s[1..])
  }

  lemma {:induction false} ShiftAllAt(s: seq<char>, i: int)
    requires AllLetters(s) && 0 <= i < |s|
    ensures ShiftAll(s)[i] == ShiftBack(s[i])
    decreases |s|
  {
    if i > 0 {
      ShiftAllAt(s[1..], i - 1);
    }
  }

  /** Shifting letter by letter: the shift of a longer prefix extends the shift of the shorter one. */
  lemma {:induction false} ShiftAllAppend(s: seq<char>, x: char)
    requires AllLetters(s) && IsLetter(x)
    ensures AllLetters(s + [x]) && ShiftAll(s + [x]) == ShiftAll(s) + [ShiftBack(x)]
    decreases |s|
  {
    if s != [] {
      assert (s + [x])[1..] == s[1..] + [x];
      ShiftAllAppend(s[1..], x);
    }
  }

  /**
   * The wiring after one turn: the wiring shifted left by one place, each
   * output letter moved back by one. Seen as a permutation this is the old one
   * conjugated by the one-step shift of the alphabet.
   */
  function Rotated(c: seq<char>): (r: seq<char>)
    requires IsWiring(c)
    ensures IsWiring(r)
  {
    ShiftAll(c[1..] + c[..1])
  }

  lemma RotatedAt(c: seq<char>, i: int)
    requires IsWiring(c) && 0 <= i < 26
    ensures Rotated(c)[i] == ShiftBack(c[(i + 1) % 26])
  {
    var rotated := c[1..] + c[..1];
    assert rotated[i] == c[(i + 1) % 26];
    ShiftAllAt(rotated, i);
  }

  /** Turning a rotor keeps its wiring free of repeated letters. */
  lemma RotatedDistinct(c: seq<char>)
    requires IsWiring(c) && Distinct(c)
    ensures Distinct(Rotated(c))
  {
    forall i, j | 0 <= i < j < 26
      ensures Rotated(c)[i] != Rotated(c)[j]
    {
      RotatedApart(c, i, j);
    }
  }

  lemma RotatedApart(c: seq<char>, i: int, j: int)
    requires IsWiring(c) && Distinct(c) && 0 <= i < j < 26
    ensures Rotated(c)[i] != Rotated(c)[j]
  {
    var a := (i + 1) % 26;
    var b := (j + 1) % 26;
    assert a < b || b < a;
    assert c[a] != c[b];
    RotatedAt(c, i);
    RotatedAt(c, j);
    ShiftBackDistinct(c[a], c[b]);
  }

  /** Letter k of the turned wiring comes from where letter k + 1 sat in the old one, one place earlier. */
  lemma RotatedHas(c: seq<char>, k: int)
    requires IsPermutation(c) && 0 <= k < 26
    ensures Chr(k) in Rotated(c)
  {
    var m := Chr((k + 1) % 26);
    LetterInPermutation(c, m);
    var p: int := IndexOf(c, m);
    var j: int := (p - 1) % 26;
    Neighbours(p);
    Neighbours(k);
    RotatedAt(c, j);
    ChrOrd(Rotated(c)[j]);
  }

  /** Turning a rotor keeps its wiring a permutation. */
  lemma RotatedPermutation(c: seq<char>)
    requires IsPermutation(c)
    ensures IsPermutation(Rotated(c))
  {
    RotatedDistinct(c);
    forall k | 0 <= k < 26
      ensures Chr(k) in Rotated(c)
    {
      RotatedHas(c, k);
    }
  }

  /** One mechanical step: the wiring turns and the offset advances modulo 26. */
  function Step(s: RotorState): (r: RotorState)
    requires WellFormed(s)
    ensures WellFormed(r) && r.turnover == s.turnover
  {
    RotorState(Rotated(s.cipher), (s.rotation + 1) % 26, s.turnover)
  }

  /** Moves every letter back by one, letter by letter, as the rotor's turn does. */
  method ShiftEach(s: seq<char>) returns (r: seq<char>)
    requires AllLetters(s)
    ensures r == ShiftAll(s)
  {
    r := [];
    for i := 0 to |s|
      invariant AllLetters(s[..i])
      invariant r == ShiftAll(s[..i])
    {
      ShiftAllAppend(s[..i], s[i]);
      assert s[..i + 1] == s[..i] + [s[i]];
      var back := LookUpBack(s[i]);
      r := r + [back];
    }
    assert s[..|s|] == s;
  }

  /** `k` steps in a row. */
  function StepN(s: RotorState, k: nat): (r: RotorState)
    requires WellFormed(s)
    ensures WellFormed(r) && r.turnover == s.turnover
    decreases k
  {
    if k == 0 then s else Step(StepN(s, k - 1))
  }

  /** Any number of steps keeps the wiring a permutation. */
  lemma StepNValid(s: RotorState, k: nat)
    requires ValidState(s)
    ensures ValidState(StepN(s, k))
  {
    var j := 0;
    while j < k
      invariant 0 <= j <= k && ValidState(StepN(s, j))
    {
      RotatedPermutation(StepN(s, j).cipher);
      j := j + 1;
    }
  }

  /** After k steps the offset has advanced by k, modulo 26. */
  lemma StepNRotation(s: RotorState, k: nat)
    requires WellFormed(s)
    ensures StepN(s, k).rotation == (s.rotation + k) % 26
  {
    var j := 0;
    while j < k
      invariant 0 <= j <= k && StepN(s, j).rotation == (s.rotation + j) % 26
    {
      RotationNext(s, j);
      j := j + 1;
    }
  }

  lemma RotationNext(s: RotorState, j: nat)
    requires WellFormed(s) && StepN(s, j).rotation == (s.rotation + j) % 26
    ensures StepN(s, j + 1).rotation == (s.rotation + (j + 1)) % 26
  {
    ModAdd(s.rotation + j, 1);
  }

  /** After k steps, output i of the wiring is output i + k of the old wiring moved back by k letters. */
  lemma {:induction false} StepNAt(s: RotorState, k: nat, i: int)
    requires WellFormed(s) && 0 <= i < 26
    ensures Ord(StepN(s, k).cipher[i]) == (Ord(s.cipher[(i + k) % 26]) - k) % 26
    decreases k
  {
    if k == 0 {
      NoStepAt(s, i);
    } else {
      StepNAt(s, k - 1, (i + 1) % 26);
      StepAt(s, k, i);
    }
  }

  lemma NoStepAt(s: RotorState, i: int)
    requires WellFormed(s) && 0 <= i < 26
    ensures Ord(StepN(s, 0).cipher[i]) == (Ord(s.cipher[(i + 0) % 26]) - 0) % 26
  {
    assert StepN(s, 0) == s;
    assert (i + 0) % 26 == i;
    assert 0 <= Ord(s.cipher[i]) < 26;
  }

  /** One more step: output m now comes from where output m + 1 was, moved back one letter. */
  lemma StepAt(s: RotorState, k: nat, m: int)
    requires WellFormed(s) && 0 <= m < 26 && k > 0
    requires Ord(StepN(s, k - 1).cipher[(m + 1) % 26]) == (Ord(s.cipher[((m + 1) % 26 + (k - 1)) % 26]) - (k - 1)) % 26
    ensures Ord(StepN(s, k).cipher[m]) == (Ord(s.cipher[(m + k) % 26]) - k) % 26
  {
    var prev := StepN(s, k - 1);
    assert StepN(s, k) == Step(prev);
    StepCipherAt(prev, m);
    StepIndex(m, k);
    ShiftIndex(Ord(s.cipher[(m + k) % 26]), k);
  }

  lemma StepCipherAt(s: RotorState, m: int)
    requires WellFormed(s) && 0 <= m < 26
    ensures Ord(Step(s).cipher[m]) == (Ord(s.cipher[(m + 1) % 26]) - 1) % 26
  {
    RotatedAt(s.cipher, m);
  }

  /** Any multiple of twenty-six steps brings a rotor back to exactly where it was. */
  lemma StepNPeriod(s: RotorState, k: nat)
    requires WellFormed(s) && k % 26 == 0
    ensures StepN(s, k) == s
  {
    var r := StepN(s, k);
    forall i | 0 <= i < 26
      ensures r.cipher[i] == s.cipher[i]
    {
      StepNAt(s, k, i);
      var x := Ord(s.cipher[i]);
      PeriodIndex(i, k);
      PeriodIndex(x, k);
      assert Ord(r.cipher[i]) == x;
    }
    StepNRotation(s, k);
    PeriodIndex(s.rotation, k);
    assert r.cipher == s.cipher;
  }

  /**
   * The ring setting n: 26 - n % 26 steps (twenty-six, the identity on the
   * wiring, when n is a multiple of 26), then the offset is reset to zero.
   */
  function RingSet(s: RotorState, n: int): (r: RotorState)
    requires WellFormed(s)
    ensures WellFormed(r) && r.rotation == 0 && r.turnover == s.turnover
  {
    StepN(s, 26 - n % 26).(rotation := 0)
  }

  /** Ring setting n moves every output n places along the ring and n letters forward. */
  lemma RingSetAt(s: RotorState, n: int, i: int)
    requires WellFormed(s) && 0 <= i < 26
    ensures Ord(RingSet(s, n).cipher[i]) == (Ord(s.cipher[(i - n) % 26]) + n) % 26
  {
    var k := 26 - n % 26;
    var d := StepN(s, k).cipher;
    StepNAt(s, k, i);
    RingShiftAt(s.cipher, d, k, n, i);
    RingSetCipher(s, n);
  }

  lemma RingSetCipher(s: RotorState, n: int)
    requires WellFormed(s)
    ensures RingSet(s, n).cipher == StepN(s, 26 - n % 26).cipher
  {
  }

  lemma RingShiftAt(c: seq<char>, d: seq<char>, k: int, n: int, i: int)
    requires |c| == 26 && |d| == 26 && 0 <= i < 26 && k == 26 - n % 26
    requires Ord(d[i]) == (Ord(c[(i + k) % 26]) - k) % 26
    ensures Ord(d[i]) == (Ord(c[(i - n) % 26]) + n) % 26
  {
    RingIndex(i, n);
    RingIndex(Ord(c[(i - n) % 26]), n);
  }

  /** Ring setting 0 (or any multiple of 26) leaves the wiring as it was. */
  lemma RingSetZero(s: RotorState, n: int)
    requires WellFormed(s) && n % 26 == 0
    ensures RingSet(s, n) == s.(rotation := 0)
  {
    StepNPeriod(s, 26 - n % 26);
  }

  /** A ring setting keeps the wiring a permutation. */
  lemma RingSetValid(s: RotorState, n: int)
    requires ValidState(s)
    ensures ValidState(RingSet(s, n))
  {
    StepNValid(s, 26 - n % 26);
  }

  /** The indicator letter shown in the rotor's window. */
  function Position(s: RotorState): (p: char)
    requires 0 <= s.rotation < 26
    ensures IsLetter(p) && Ord(p) == s.rotation
  {
    Chr(s.rotation)
  }

  /** Whether the rotor sits at one of its turnover letters. */
  function Trigger(s: RotorState): bool
    requires 0 <= s.rotation < 26
  {
    Position(s) in s.turnover
  }

  /** The number of steps a rotor at offset `from` takes to show letter `c`. */
  function StepsTo(from: int, c: char): int { (Ord(c) - from) % 26 }

  /** A step towards `c` leaves one step fewer to go, unless the window already shows `c`. */
  lemma StepTowards(s: RotorState, c: char)
    requires WellFormed(s) && IsLetter(c)
    ensures Position(s) == c <==> StepsTo(s.rotation, c) == 0
    ensures Position(s) != c ==> StepsTo((s.rotation + 1) % 26, c) == StepsTo(s.rotation, c) - 1
    ensures 0 <= StepsTo(s.rotation, c) < 26
  {
    ChrOrd(c);
    if Position(s) != c {
      CountDown(s.rotation, Ord(c));
    }
  }

  /** One turn of a rotor not yet showing `c` is one step more taken and one fewer to go. */
  lemma TurnTowards(start: RotorState, n: nat, s: RotorState, c: char)
    requires WellFormed(start) && IsLetter(c) && s == StepN(start, n) && Position(s) != c
    requires n + StepsTo(s.rotation, c) == StepsTo(start.rotation, c)
    ensures Step(s) == StepN(start, n + 1)
    ensures n + 1 + StepsTo(Step(s).rotation, c) == StepsTo(start.rotation, c)
    ensures 0 <= StepsTo(Step(s).rotation, c) < StepsTo(s.rotation, c)
  {
    StepTowards(s, c);
    assert Step(s).rotation == (s.rotation + 1) % 26;
  }

  /** A rotor that shows `c` after the steps counted has reached `SetTo`'s state. */
  lemma Arrived(start: RotorState, n: nat, s: RotorState, c: char)
    requires WellFormed(start) && IsLetter(c) && s == StepN(start, n) && Position(s) == c
    requires n + StepsTo(s.rotation, c) == StepsTo(start.rotation, c)
    ensures s == SetTo(start, c)
  {
    StepTowards(s, c);
  }

  /** The state `set_position(c)` leads to: turned, fewer than 26 times, until its window shows `c`. */
  function SetTo(s: RotorState, c: char): (r: RotorState)
    requires WellFormed(s) && IsLetter(c)
    ensures WellFormed(r) && Position(r) == c && r.turnover == s.turnover
    ensures 0 <= StepsTo(s.rotation, c) < 26 && r == StepN(s, StepsTo(s.rotation, c))
  {
    var k := StepsTo(s.rotation, c);
    StepNRotation(s, k);
    Arrive(s.rotation, Ord(c));
    ChrOrd(c);
    StepN(s, k)
  }

  /** Mutable rotor: the wiring and the offset change as it turns; the turnover letters never do. */
  class Rotor {
    var cipher: seq<char>
    var rotation: int
    const turnover: set<char>

    function State(): RotorState
      reads this
    {
      RotorState(cipher, rotation, turnover)
    }

    ghost predicate Valid()
      reads this
    {
      ValidState(State())
    }

    /** A rotor with the given wiring and turnover letters, calibrated by the ring setting. */
    constructor (cipher: seq<char>, ringSetting: int, turnover: seq<char>)
      requires IsPermutation(cipher)
      ensures Valid()
      ensures State() == RingSet(RotorState(cipher, 0, set c | c in turnover), ringSetting)
    {
      this.rotation := 0;
      this.turnover := set c | c in turnover;
      this.cipher := cipher;
      new;
      ApplyRingSetting(ringSetting);
    }

    method ApplyRingSetting(ringSetting: int)
      requires Valid()
      modifies this
      ensures Valid()
      ensures State() == RingSet(old(State()), ringSetting)
    {
      var steps := 26 - ringSetting % 26;
      ghost var start := State();
      for n := 0 to steps
        invariant Valid() && State() == StepN(start, n)
      {
        Rotate();
      }
      ghost var turned := StepN(start, steps);
      assert ValidState(turned);
      rotation := 0;
      assert State() == turned.(rotation := 0) == RingSet(start, ringSetting);
    }

    /** One step: shift the wiring left by one, move each output letter back by one. */
    method Rotate()
      requires Valid()
      modifies this
      ensures Valid()
      ensures State() == Step(old(State()))
    {
      var rotated := cipher[1..] + cipher[..1];
      assert AllLetters(rotated);
      var shifted := ShiftEach(rotated);
      RotatedPermutation(cipher);
      ghost var next := Step(State());
      assert shifted == next.cipher;
      rotation := (rotation + 1) % 26;
      cipher := shifted;
    }

    /** The letter in the rotor's window. */
    method GetPosition() returns (p: char)
      requires Valid()
      ensures p == Position(State())
    {
      AlphabetAt(rotation);
      p := Alphabet[rotation];
    }

    /** Turn until the window shows `letter`; a letter outside the alphabet is refused. */
    method SetPosition(letter: char) returns (ok: bool)
      requires Valid()
      modifies this
      ensures Valid()
      ensures ok == IsLetter(letter)
      ensures State() == if ok then SetTo(old(State()), letter) else old(State())
    {
      InAlphabet(letter);
      if letter !in Alphabet {
        return false;
      }
      ghost var start := State();
      ghost var n := 0;
      var shown := GetPosition();
      StepTowards(start, letter);
      while shown != letter
        invariant Valid() && State() == StepN(start, n)
        invariant shown == Position(State())
        invariant n + StepsTo(State().rotation, letter) == StepsTo(start.rotation, letter)
        decreases StepsTo(State().rotation, letter)
      {
        TurnTowards(start, n, State(), letter);
        Rotate();
        n := n + 1;
        shown := GetPosition();
      }
      Arrived(start, n, State(), letter);
      ok := true;
    }

    /** Whether the rotor sits at one of its turnover letters. */
    method TriggerRotation() returns (b: bool)
      requires Valid()
      ensures b == Trigger(State())
    {
      var p := GetPosition();
      b := p in turnover;
    }
  }
}
