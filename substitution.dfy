/**
 * The 26-letter lookup table every component of the machine is built on:
 * encoding maps the letter at position i of the alphabet to `cipher[i]`,
 * decoding looks a letter up in the cipher and returns the alphabet letter
 * at the position where it was found.
 */
module Substitution {

  const Alphabet: string := "abcdefghijklmnopqrstuvwxyz"

  predicate IsLetter(c: char) { 'a' <= c <= 'z' }

  /** Position of a letter in the alphabet. */
  function Ord(c: char): int { c as int - 'a' as int }

  /** The letter at a position of the alphabet. */
  function Chr(k: int): (c: char)
    requires 0 <= k < 26
    ensures IsLetter(c) && Ord(c) == k
  {
    (k + 'a' as int) as char
  }

  lemma ChrOrd(c: char)
    requires IsLetter(c)
    ensures Chr(Ord(c)) == c
  {
  }

  lemma AlphabetAt(k: int)
    requires 0 <= k < 26
    ensures |Alphabet| == 26 && Alphabet[k] == Chr(k)
  {
  }

  lemma InAlphabet(c: char)
    ensures c in Alphabet <==> IsLetter(c)
  {
    if IsLetter(c) {
      AlphabetAt(Ord(c));
    } else if c in Alphabet {
      AlphabetAt(IndexOf(Alphabet, c));
    }
  }

  /** First position of `x` in `s`, as Python's `index`. */
  function IndexOf(s: seq<char>, x: char): (i: nat)
    requires x in s
    ensures i < |s| && s[i] == x
    ensures forall j :: 0 <= j < i ==> s[j] != x
  {
    if s[0] == x then 0 else 1 + IndexOf(s[1..], x)
  }

  /** Looking a letter up in the alphabet gives its alphabet position. */
  lemma IndexOfAlphabet(c: char)
    requires IsLetter(c)
    ensures c in Alphabet && IndexOf(Alphabet, c) == Ord(c)
  {
    InAlphabet(c);
    AlphabetAt(IndexOf(Alphabet, c));
  }

  /** No symbol occurs twice. */
  predicate Distinct(s: seq<char>) {
    forall i, j | 0 <= i < j < |s| :: s[i] != s[j]
  }

  /** Every symbol of `s` is a letter. */
  predicate AllLetters(s: seq<char>) {
    forall i | 0 <= i < |s| :: IsLetter(s[i])
  }

  /** 26 symbols, all of them letters. */
  predicate IsWiring(c: seq<char>) {
    |c| == 26 && AllLetters(c)
  }

  /** `c` is a rearrangement of the 26 letters. */
  predicate IsPermutation(c: seq<char>) {
    && IsWiring(c)
    && Distinct(c)
    && (forall k | 0 <= k < 26 :: Chr(k) in c)
  }

  /** Look `msg` up in `alphIn` and return the symbol at the same position of `alphOut`. */
  function Translate(msg: char, alphIn: seq<char>, alphOut: seq<char>): (r: char)
    requires |alphIn| == |alphOut|
    requires msg in alphIn
    ensures r in alphOut
    ensures Distinct(alphIn) ==>
      forall i | 0 <= i < |alphIn| && alphIn[i] == msg :: r == alphOut[i]
  {
    alphOut[IndexOf(alphIn, msg)]
  }

  /** Translate answers from the first position of `msg` in the input alphabet, as `index` finds it. */
  lemma TranslateFirst(msg: char, alphIn: seq<char>, alphOut: seq<char>, i: int)
    requires |alphIn| == |alphOut| && 0 <= i < |alphIn| && alphIn[i] == msg
    requires forall j | 0 <= j < i :: alphIn[j] != msg
    ensures Translate(msg, alphIn, alphOut) == alphOut[i]
  {
    var k := IndexOf(alphIn, msg);
    assert !(k < i) && !(i < k);
  }

  /** `encode`: the cipher's letter at the plaintext letter's alphabet position. */
  function Encode(cipher: seq<char>, plaintext: char): (r: char)
    requires |cipher| == 26 && IsLetter(plaintext)
    ensures r in cipher
  {
    cipher[Ord(plaintext)]
  }

  /** `decode`: the alphabet letter at the first position of the ciphertext letter in the cipher. */
  function Decode(cipher: seq<char>, ciphertext: char): (r: char)
    requires |cipher| == 26 && ciphertext in cipher
    ensures IsLetter(r) && cipher[Ord(r)] == ciphertext
  {
    Chr(IndexOf(cipher, ciphertext))
  }

  /** Decoding finds the first position of the ciphertext letter: no earlier position holds it. */
  lemma DecodeFirst(cipher: seq<char>, ciphertext: char, j: int)
    requires |cipher| == 26 && ciphertext in cipher && 0 <= j < Ord(Decode(cipher, ciphertext))
    ensures cipher[j] != ciphertext
  {
  }

  /** `encode` is the lookup from the alphabet into the cipher, and `decode` the lookup back. */
  lemma EncodeDecodeAreLookups(cipher: seq<char>, x: char, y: char)
    requires |cipher| == 26 && IsLetter(x) && y in cipher
    ensures x in Alphabet && Encode(cipher, x) == Translate(x, Alphabet, cipher)
    ensures Decode(cipher, y) == Translate(y, cipher, Alphabet)
  {
    IndexOfAlphabet(x);
    AlphabetAt(IndexOf(cipher, y));
  }

  /** Every letter is in a permutation. */
  lemma LetterInPermutation(cipher: seq<char>, l: char)
    requires IsPermutation(cipher) && IsLetter(l)
    ensures l in cipher
  {
    assert Chr(Ord(l)) == l;
  }

  /** Decoding a letter found at position i of a duplicate-free cipher returns the i-th letter. */
  lemma DecodeAt(cipher: seq<char>, i: int)
    requires |cipher| == 26 && 0 <= i < 26 && Distinct(cipher)
    ensures Decode(cipher, cipher[i]) == Chr(i)
  {
  }

  /** For a permutation, decode undoes encode ... */
  lemma DecodeEncode(cipher: seq<char>, x: char)
    requires IsPermutation(cipher) && IsLetter(x)
    ensures IsLetter(Encode(cipher, x)) && Decode(cipher, Encode(cipher, x)) == x
  {
    LetterInPermutation(cipher, Encode(cipher, x));
    DecodeAt(cipher, Ord(x));
    ChrOrd(x);
  }

  /** ... and encode undoes decode. */
  lemma EncodeDecode(cipher: seq<char>, y: char)
    requires IsPermutation(cipher) && IsLetter(y)
    ensures y in cipher && Encode(cipher, Decode(cipher, y)) == y
  {
    LetterInPermutation(cipher, y);
  }

  /** A cipher with a two-sided inverse table is a permutation ... */
  lemma InverseIsPermutation(c: seq<char>, d: seq<char>)
    requires |c| == 26 && |d| == 26
    requires forall k | 0 <= k < 26 :: IsLetter(c[k]) && d[Ord(c[k])] == Chr(k)
    requires forall k | 0 <= k < 26 :: IsLetter(d[k]) && c[Ord(d[k])] == Chr(k)
    ensures IsPermutation(c)
  {
    forall k | 0 <= k < 26
      ensures Chr(k) in c
    {
      assert c[Ord(d[k])] == Chr(k);
    }
  }

  /** ... and decoding through it is encoding through the table. */
  lemma InverseDecodes(c: seq<char>, d: seq<char>, y: char)
    requires IsPermutation(c) && |d| == 26 && IsLetter(y)
    requires forall k | 0 <= k < 26 :: IsLetter(d[k]) && c[Ord(d[k])] == Chr(k)
    ensures y in c && Decode(c, y) == Encode(d, y)
  {
    LetterInPermutation(c, y);
    var x := d[Ord(y)];
    assert c[Ord(x)] == y;
    DecodeAt(c, Ord(x));
    ChrOrd(x);
  }
}
