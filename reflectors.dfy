/**
 * The reflector: a fixed substitution cipher that must be symmetric, so
 * that a letter sent in comes back along the same pair of contacts.
 * Building one checks, letter by letter, that encoding and decoding agree.
 */
module Reflectors {
  import opened Errors
  import opened Substitution

  /** The check made on one letter: it must occur in the cipher, and encode and decode must agree on it. */
  function LetterCheck(c: seq<char>, l: char): Option<Error>
    requires |c| == 26 && IsLetter(l)
  {
    if l !in c then Some(NotFound(l))
    else if Encode(c, l) != Decode(c, l) then Some(AsymmetricReflector(l))
    else None
  }

  /** The first n letters of the alphabet pass the check. */
  predicate Checked(c: seq<char>, n: nat)
    requires |c| == 26 && n <= 26
  {
    n == 0 || (Checked(c, n - 1) && LetterCheck(c, Chr(n - 1)) == None)
  }

  lemma {:induction false} CheckedAt(c: seq<char>, n: nat, k: int)
    requires |c| == 26 && n <= 26 && Checked(c, n) && 0 <= k < n
    ensures LetterCheck(c, Chr(k)) == None
    decreases n
  {
    if k < n - 1 {
      CheckedAt(c, n - 1, k);
    }
  }

  /** A cipher every letter passes. */
  predicate IsReflectorWiring(c: seq<char>) {
    |c| == 26 && Checked(c, 26)
  }

  /**
   * Check the cipher letter by letter, in alphabet order, and report the
   * first letter that fails.
   */
  method NewReflector(c: seq<char>) returns (r: Result<seq<char>>)
    requires |c| == 26
    ensures r.Ok? <==> IsReflectorWiring(c)
    ensures r.Ok? ==> r.value == c
    ensures r.Err? ==> exists k | 0 <= k < 26 :: Checked(c, k) && LetterCheck(c, Chr(k)) == Some(r.error)
  {
    for k := 0 to 26
      invariant Checked(c, k)
    {
      AlphabetAt(k);
      var letter := Alphabet[k];
      if letter !in c {
        NotCheckedPast(c, k, 26);
        return Err(NotFound(letter));
      }
      if Encode(c, letter) != Decode(c, letter) {
        NotCheckedPast(c, k, 26);
        return Err(AsymmetricReflector(letter));
      }
    }
    return Ok(c);
  }

  /** A letter that fails the check keeps every longer prefix from passing. */
  lemma {:induction false} NotCheckedPast(c: seq<char>, k: int, n: nat)
    requires |c| == 26 && 0 <= k < n <= 26 && LetterCheck(c, Chr(k)) != None
    ensures !Checked(c, n)
    decreases n
  {
    if k < n - 1 {
      NotCheckedPast(c, k, n - 1);
    }
  }

  /** Reflecting twice gives back the letter. */
  lemma ReflectorInvolution(c: seq<char>, x: char)
    requires IsReflectorWiring(c) && IsLetter(x)
    ensures IsLetter(Encode(c, x)) && Encode(c, Encode(c, x)) == x
  {
    ChrOrd(x);
    CheckedAt(c, 26, Ord(x));
    var y := Decode(c, x);
    ChrOrd(y);
    assert c[Ord(y)] == x;
  }

  /** A symmetric cipher is a permutation of the alphabet. */
  lemma ReflectorPermutation(c: seq<char>)
    requires IsReflectorWiring(c)
    ensures IsPermutation(c)
  {
    forall i | 0 <= i < 26
      ensures IsLetter(c[i])
    {
      ReflectorInvolution(c, Chr(i));
    }
    forall i, j | 0 <= i < j < 26
      ensures c[i] != c[j]
    {
      ReflectorInvolution(c, Chr(i));
      ReflectorInvolution(c, Chr(j));
    }
    forall k | 0 <= k < 26
      ensures Chr(k) in c
    {
      CheckedAt(c, 26, k);
    }
  }

  /** Conversely, a permutation that undoes itself passes every check. */
  lemma InvolutionIsReflector(c: seq<char>)
    requires IsPermutation(c)
    requires forall x | IsLetter(x) :: Encode(c, Encode(c, x)) == x
    ensures IsReflectorWiring(c)
  {
    forall k | 0 <= k < 26
      ensures LetterCheck(c, Chr(k)) == None
    {
      InvolutionAt(c, k);
    }
    AllChecked(c, 26);
  }

  lemma {:induction false} AllChecked(c: seq<char>, n: nat)
    requires |c| == 26 && n <= 26
    requires forall k | 0 <= k < 26 :: LetterCheck(c, Chr(k)) == None
    ensures Checked(c, n)
    decreases n
  {
    if n > 0 {
      AllChecked(c, n - 1);
    }
  }

  lemma InvolutionAt(c: seq<char>, k: int)
    requires IsPermutation(c) && 0 <= k < 26
    requires forall x | IsLetter(x) :: Encode(c, Encode(c, x)) == x
    ensures LetterCheck(c, Chr(k)) == None
  {
    var l := Chr(k);
    LetterInPermutation(c, l);
    var p := IndexOf(c, l);
    var y := Encode(c, l);
    assert IsLetter(y);
    assert c[Ord(y)] == l;
    assert Ord(y) == p;
    ChrOrd(y);
  }

  /** A cipher that is its own inverse table passes every check. */
  lemma SelfInverseIsReflector(c: seq<char>)
    requires |c| == 26
    requires forall k | 0 <= k < 26 :: IsLetter(c[k]) && c[Ord(c[k])] == Chr(k)
    ensures IsReflectorWiring(c)
  {
    InverseIsPermutation(c, c);
    forall x | IsLetter(x)
      ensures Encode(c, Encode(c, x)) == x
    {
      ChrOrd(x);
    }
    InvolutionIsReflector(c);
  }

  /** Whether some letter is wired to itself. */
  predicate HasFixedPoint(c: seq<char>)
    requires |c| == 26
  {
    exists k | 0 <= k < 26 :: c[k] == Chr(k)
  }
}
