/**
 * The plugboard: a wiring string of letter pairs such as "at bf jp" swaps
 * each pair of letters and leaves every other letter alone. Building one
 * splits the string on whitespace and checks each pair in turn.
 */
module Plugboards {
  import opened Errors
  import opened Substitution

  /** The characters Python's `str.split()` treats as whitespace. */
  predicate IsSpace(c: char) {
    || '\U{9}' <= c <= '\U{d}'
    || '\U{1c}' <= c <= '\U{20}'
    || c == '\U{85}' || c == '\U{a0}' || c == '\U{1680}'
    || '\U{2000}' <= c <= '\U{200a}'
    || c == '\U{2028}' || c == '\U{2029}' || c == '\U{202f}' || c == '\U{205f}' || c == '\U{3000}'
  }

  predicate NoSpace(s: string) {
    forall i | 0 <= i < |s| :: !IsSpace(s[i])
  }

  /** Length of the word at the start of `s`: the run of characters up to the next whitespace. */
  function WordLength(s: string): (n: nat)
    requires s != [] && !IsSpace(s[0])
    ensures 0 < n <= |s| && NoSpace(s[..n])
    ensures n < |s| ==> IsSpace(s[n])
  {
    if |s| == 1 || IsSpace(s[1]) then 1 else 1 + WordLength(s[1..])
  }

  /** `str.split()` without arguments: the maximal runs of non-whitespace characters, in order. */
  function Split(s: string): (r: seq<string>)
    ensures forall j | 0 <= j < |r| :: r[j] != [] && NoSpace(r[j])
    decreases |s|
  {
    if s == [] then []
    else if IsSpace(s[0]) then Split(s[1..])
    else
      var n := WordLength(s);
      [s[..n]] + Split(s[n..])
  }

  /** The words laid end to end. */
  function Concat(ts: seq<string>): string {
    if ts == [] then [] else ts[0] + Concat(ts[1..])
  }

  /** `s` with its whitespace removed. */
  function Squeezed(s: string): string {
    if s == [] then []
    else (if IsSpace(s[0]) then [] else [s[0]]) + Squeezed(s[1..])
  }

  lemma {:induction false} SqueezedWord(s: string, n: nat)
    requires n <= |s| && NoSpace(s[..n])
    ensures Squeezed(s) == s[..n] + Squeezed(s[n..])
    decreases n
  {
    if n > 0 {
      var t := s[1..];
      WordTail(s, n);
      SqueezedWord(t, n - 1);
      assert t[n - 1..] == s[n..];
      assert s[..n] == [s[0]] + t[..n - 1];
    }
  }

  /** A word without its first character is still a word, and its first character is no space. */
  lemma WordTail(s: string, n: nat)
    requires 0 < n <= |s| && NoSpace(s[..n])
    ensures !IsSpace(s[0]) && NoSpace(s[1..][..n - 1])
  {
    assert s[..n][0] == s[0];
    var u := s[1..][..n - 1];
    forall i | 0 <= i < |u|
      ensures !IsSpace(u[i])
    {
      assert u[i] == s[..n][i + 1];
    }
  }

  /** Splitting loses nothing but the whitespace. */
  lemma {:induction false} SplitKeepsText(s: string)
    ensures Concat(Split(s)) == Squeezed(s)
    decreases |s|
  {
    if s != [] {
      if IsSpace(s[0]) {
        SplitKeepsText(s[1..]);
      } else {
        var n := WordLength(s);
        SplitKeepsText(s[n..]);
        SqueezedWord(s, n);
        assert ([s[..n]] + Split(s[n..]))[1..] == Split(s[n..]);
      }
    }
  }

  /** The word at the start of `s` ends at the first whitespace, or at the end of `s`: no other length fits. */
  lemma {:induction false} WordLengthIs(s: string, n: nat)
    requires s != [] && !IsSpace(s[0])
    requires 0 < n <= |s| && NoSpace(s[..n]) && (n < |s| ==> IsSpace(s[n]))
    ensures WordLength(s) == n
    decreases n
  {
    if n > 1 {
      WordTail(s, n);
      assert n < |s| ==> s[1..][n - 1] == s[n];
      WordLengthIs(s[1..], n - 1);
    }
  }

  /** A single word splits into itself. */
  lemma SplitWord(w: string)
    requires w != [] && NoSpace(w)
    ensures Split(w) == [w]
  {
    assert w[..|w|] == w;
    assert !IsSpace(w[0]);
    WordLengthIs(w, |w|);
    assert w[|w|..] == [];
  }

  /** Whitespace separates words: splitting around a whitespace character splits each side on its own. */
  lemma {:induction false} SplitAtSpace(a: string, c: char, b: string)
    requires IsSpace(c)
    ensures Split(a + [c] + b) == Split(a) + Split(b)
    decreases |a|
  {
    if a == [] {
      assert a + [c] + b == [c] + b && ([c] + b)[1..] == b;
    } else if IsSpace(a[0]) {
      SplitAtSpace(a[1..], c, b);
      assert (a + [c] + b)[1..] == a[1..] + [c] + b;
    } else {
      var m := WordLength(a);
      SplitAtSpace(a[m..], c, b);
      SplitAfterWord(a, c, b);
    }
  }

  /** The first word of `a` is also the first word of `a + [c] + b`, and the rest splits as before. */
  lemma SplitAfterWord(a: string, c: char, b: string)
    requires IsSpace(c) && a != [] && !IsSpace(a[0])
    requires Split(a[WordLength(a)..] + [c] + b) == Split(a[WordLength(a)..]) + Split(b)
    ensures Split(a + [c] + b) == Split(a) + Split(b)
  {
    var s := a + [c] + b;
    var m := WordLength(a);
    FirstWordKept(a, c, b);
    SplitFirstWord(s, m);
    SplitFirstWord(a, m);
    SlicesAround(a, c, b, m);
    WordsAssociate([a[..m]], Split(a[m..]), Split(b));
  }

  lemma WordsAssociate(x: seq<string>, y: seq<string>, z: seq<string>)
    ensures x + (y + z) == (x + y) + z
  {
  }

  /** Cutting `a + [c] + b` inside `a` cuts `a` there. */
  lemma SlicesAround(a: string, c: char, b: string, m: int)
    requires 0 <= m <= |a|
    ensures (a + [c] + b)[..m] == a[..m] && (a + [c] + b)[m..] == a[m..] + [c] + b
  {
  }

  /** A string starting with a word splits into that word and the split of the rest. */
  lemma SplitFirstWord(s: string, n: nat)
    requires s != [] && !IsSpace(s[0]) && WordLength(s) == n
    ensures Split(s) == [s[..n]] + Split(s[n..])
  {
  }

  /** Text after a whitespace character does not lengthen the first word. */
  lemma FirstWordKept(a: string, c: char, b: string)
    requires IsSpace(c) && a != [] && !IsSpace(a[0])
    ensures WordLength(a + [c] + b) == WordLength(a)
  {
    var s := a + [c] + b;
    var m := WordLength(a);
    SlicesAround(a, c, b, m);
    assert s[m] == if m < |a| then a[m] else c;
    WordLengthIs(s, m);
  }

  function Chars(t: string): set<char> {
    set i | 0 <= i < |t| :: t[i]
  }

  /** Every character of every pair so far. */
  function Seen(ts: seq<string>): set<char>
    decreases |ts|
  {
    if ts == [] then {} else Seen(ts[..|ts| - 1]) + Chars(ts[|ts| - 1])
  }

  /**
   * The checks made on one pair, in the order they are made: it must be two
   * characters long, reuse no letter of an earlier pair, not pair a letter
   * with itself, and both characters must be letters of the alphabet.
   */
  function PairCheck(seen: set<char>, t: string): Option<Error> {
    if |t| != 2 then Some(MalformedPair(t))
    else if t[0] in seen || t[1] in seen || t[0] == t[1] then Some(RepeatedLetter(t))
    else if !IsLetter(t[0]) then Some(NotFound(t[0]))
    else if !IsLetter(t[1]) then Some(NotFound(t[1]))
    else None
  }

  /** Every pair passes its checks. */
  predicate PairsOk(ts: seq<string>)
    decreases |ts|
  {
    ts == [] || (PairsOk(ts[..|ts| - 1]) && PairCheck(Seen(ts[..|ts| - 1]), ts[|ts| - 1]) == None)
  }

  /** The letter `x` is swapped with: its pair's other letter, or `x` itself if no pair uses it. */
  function Partner(ts: seq<string>, x: char): char
    requires PairsOk(ts)
    decreases |ts|
  {
    if ts == [] then x
    else
      var t := ts[|ts| - 1];
      if x == t[0] then t[1] else if x == t[1] then t[0] else Partner(ts[..|ts| - 1], x)
  }

  /** A list of good pairs has good prefixes, and the pair after each prefix passes its checks. */
  lemma {:induction false} PairsOkAt(ts: seq<string>, i: int)
    requires PairsOk(ts) && 0 <= i < |ts|
    ensures PairsOk(ts[..i]) && PairCheck(Seen(ts[..i]), ts[i]) == None
    decreases |ts|
  {
    var last := |ts| - 1;
    if i < last {
      PairsOkAt(ts[..last], i);
      assert ts[..last][..i] == ts[..i];
    }
  }

  /** Good pairs use letters only, two to a pair. */
  lemma {:induction false} SeenLetters(ts: seq<string>)
    requires PairsOk(ts)
    ensures forall c | c in Seen(ts) :: IsLetter(c)
    decreases |ts|
  {
    if ts != [] {
      SeenLetters(ts[..|ts| - 1]);
    }
  }

  /** A letter no pair uses is left alone; a letter some pair uses is swapped for another used letter. */
  lemma {:induction false} PartnerSeen(ts: seq<string>, x: char)
    requires PairsOk(ts)
    ensures x !in Seen(ts) ==> Partner(ts, x) == x
    ensures x in Seen(ts) ==> Partner(ts, x) in Seen(ts) && Partner(ts, x) != x
    decreases |ts|
  {
    if ts != [] {
      PartnerSeen(ts[..|ts| - 1], x);
    }
  }

  /** Swapping twice gives back the letter. */
  lemma {:induction false} PartnerInvolution(ts: seq<string>, x: char)
    requires PairsOk(ts)
    ensures Partner(ts, Partner(ts, x)) == x
    decreases |ts|
  {
    if ts != [] {
      var prefix := ts[..|ts| - 1];
      var t := ts[|ts| - 1];
      if x != t[0] && x != t[1] {
        PartnerInvolution(prefix, x);
        PartnerSeen(prefix, x);
        PartnerSeen(prefix, Partner(prefix, x));
      }
    }
  }

  /** Each pair of the wiring is swapped: its first letter with its second. */
  lemma {:induction false} PartnerOfPair(ts: seq<string>, j: int)
    requires PairsOk(ts) && 0 <= j < |ts|
    ensures |ts[j]| == 2
    ensures Partner(ts, ts[j][0]) == ts[j][1] && Partner(ts, ts[j][1]) == ts[j][0]
    decreases |ts|
  {
    var last := |ts| - 1;
    if j < last {
      var prefix := ts[..last];
      PartnerOfPair(prefix, j);
      SeenHas(prefix, j);
    }
  }

  /** The letters of pair j are among the letters seen. */
  lemma {:induction false} SeenHas(ts: seq<string>, j: int)
    requires 0 <= j < |ts|
    ensures forall c | c in ts[j] :: c in Seen(ts)
    decreases |ts|
  {
    var last := |ts| - 1;
    if j < last {
      SeenHas(ts[..last], j);
    }
  }

  /** The board holds each letter's partner at that letter's position. */
  predicate IsBoardOf(ts: seq<string>, board: seq<char>)
    requires PairsOk(ts)
  {
    |board| == 26 && forall k | 0 <= k < 26 :: board[k] == Partner(ts, Chr(k))
  }

  /** The partner of a letter is a letter. */
  lemma PartnerLetter(ts: seq<string>, x: char)
    requires PairsOk(ts) && IsLetter(x)
    ensures IsLetter(Partner(ts, x))
  {
    PartnerSeen(ts, x);
    SeenLetters(ts);
  }

  /**
   * A plugboard is a permutation of the alphabet that undoes itself:
   * encoding twice gives back the letter, and decoding is encoding.
   */
  lemma BoardPermutation(ts: seq<string>, board: seq<char>)
    requires PairsOk(ts) && IsBoardOf(ts, board)
    ensures IsPermutation(board)
    ensures forall x | IsLetter(x) :: IsLetter(Encode(board, x)) && Encode(board, Encode(board, x)) == x
  {
    forall x | IsLetter(x)
      ensures IsLetter(Encode(board, x)) && Encode(board, Encode(board, x)) == x
    {
      ChrOrd(x);
      PartnerLetter(ts, x);
      var y := Partner(ts, x);
      ChrOrd(y);
      PartnerInvolution(ts, x);
    }
    forall i | 0 <= i < 26
      ensures IsLetter(board[i])
    {
      assert board[i] == Encode(board, Chr(i));
    }
    forall i, j | 0 <= i < j < 26
      ensures board[i] != board[j]
    {
      PartnerInvolution(ts, Chr(i));
      PartnerInvolution(ts, Chr(j));
    }
    forall k | 0 <= k < 26
      ensures Chr(k) in board
    {
      var y := Partner(ts, Chr(k));
      PartnerLetter(ts, Chr(k));
      PartnerInvolution(ts, Chr(k));
      ChrOrd(y);
      assert board[Ord(y)] == Chr(k);
    }
  }

  /** Decoding through a plugboard is the same as encoding through it. */
  lemma BoardSymmetric(ts: seq<string>, board: seq<char>, x: char)
    requires PairsOk(ts) && IsBoardOf(ts, board) && IsLetter(x)
    ensures x in board && Decode(board, x) == Encode(board, x)
  {
    BoardPermutation(ts, board);
    LetterInPermutation(board, x);
    var y := Encode(board, x);
    DecodeAt(board, Ord(y));
    ChrOrd(y);
  }

  /** The untouched alphabet, as the plugboard starts from it. */
  method Letters() returns (a: seq<char>)
    ensures |a| == 26 && forall k | 0 <= k < 26 :: a[k] == Chr(k)
  {
    a := Alphabet;
    forall k | 0 <= k < 26
      ensures a[k] == Chr(k)
    {
      AlphabetAt(k);
    }
  }

  /** A letter no earlier pair used is still in its own place on the board. */
  lemma UnusedInPlace(ts: seq<string>, board: seq<char>, l: char)
    requires PairsOk(ts) && IsBoardOf(ts, board) && IsLetter(l) && l !in Seen(ts)
    ensures l in board && IndexOf(board, l) == Ord(l)
  {
    BoardPermutation(ts, board);
    ChrOrd(l);
    PartnerSeen(ts, l);
    assert board[Ord(l)] == l;
  }

  /**
   * Build a plugboard from its wiring string, or report the first pair that
   * fails its checks.
   */
  method NewPlugboard(wiring: string) returns (r: Result<seq<char>>)
    ensures r.Ok? <==> PairsOk(Split(wiring))
    ensures r.Ok? ==> IsBoardOf(Split(wiring), r.value)
    ensures r.Err? ==> exists i | 0 <= i < |Split(wiring)| ::
      PairsOk(Split(wiring)[..i]) && PairCheck(Seen(Split(wiring)[..i]), Split(wiring)[i]) == Some(r.error)
  {
    var pairs := Split(wiring);
    var board := Letters();
    var seen: set<char> := {};
    for i := 0 to |pairs|
      invariant PairsOk(pairs[..i]) && seen == Seen(pairs[..i])
      invariant IsBoardOf(pairs[..i], board)
    {
      var pair := pairs[i];
      var prefix := pairs[..i];
      PrefixNext(pairs, i);
      if |pair| != 2 {
        NotOkAt(pairs, i);
        return Err(MalformedPair(pair));
      }
      var l1, l2 := pair[0], pair[1];
      if l1 in seen || l2 in seen || l1 == l2 {
        NotOkAt(pairs, i);
        return Err(RepeatedLetter(pair));
      }
      seen := seen + {l1, l2};
      var swapped := SwapPair(prefix, board, l1, l2);
      if swapped.Err? {
        NotOkAt(pairs, i);
        return swapped;
      }
      board := swapped.value;
      SeenNext(pairs, i);
      SwapExtends(prefix, pairs[..i + 1], board);
    }
    assert pairs[..|pairs|] == pairs;
    return Ok(board);
  }

  /**
   * Swap two letters no earlier pair used: find each one's place on the
   * board and put the other letter there. A character that is not a letter
   * is not found.
   */
  method SwapPair(ghost prefix: seq<string>, board: seq<char>, l1: char, l2: char) returns (r: Result<seq<char>>)
    requires PairsOk(prefix) && IsBoardOf(prefix, board)
    requires l1 !in Seen(prefix) && l2 !in Seen(prefix) && l1 != l2
    ensures r.Err? <==> !IsLetter(l1) || !IsLetter(l2)
    ensures r.Err? ==> r.error == if !IsLetter(l1) then NotFound(l1) else NotFound(l2)
    ensures r.Ok? ==> |r.value| == 26 && r.value[Ord(l1)] == l2 && r.value[Ord(l2)] == l1
    ensures r.Ok? ==> forall k | 0 <= k < 26 && k != Ord(l1) && k != Ord(l2) :: r.value[k] == board[k]
  {
    BoardPermutation(prefix, board);
    LettersOnBoard(board, l1);
    if l1 !in board {
      return Err(NotFound(l1));
    }
    UnusedInPlace(prefix, board, l1);
    var p1 := IndexOf(board, l1);
    LettersOnBoard(board, l2);
    if l2 !in board {
      return Err(NotFound(l2));
    }
    UnusedInPlace(prefix, board, l2);
    var p2 := IndexOf(board, l2);
    return Ok(board[p1 := l2][p2 := l1]);
  }

  /** The characters on a board are exactly the letters. */
  lemma LettersOnBoard(board: seq<char>, l: char)
    requires IsPermutation(board)
    ensures l in board <==> IsLetter(l)
  {
    if IsLetter(l) {
      LetterInPermutation(board, l);
    }
  }

  /** A pair that fails its checks makes the whole wiring fail. */
  lemma NotOkAt(ts: seq<string>, i: int)
    requires 0 <= i < |ts| && PairCheck(Seen(ts[..i]), ts[i]) != None
    ensures !PairsOk(ts)
  {
    if PairsOk(ts) {
      PairsOkAt(ts, i);
    }
  }

  /** One more pair: the prefix grows by that pair. */
  lemma PrefixNext(ts: seq<string>, i: int)
    requires 0 <= i < |ts|
    ensures |ts[..i + 1]| == i + 1 && ts[..i + 1][..i] == ts[..i] && ts[..i + 1][i] == ts[i]
  {
  }

  /** One more well-formed pair: its two characters join the ones seen. */
  lemma SeenNext(ts: seq<string>, i: int)
    requires 0 <= i < |ts| && |ts[i]| == 2
    ensures Seen(ts[..i + 1]) == Seen(ts[..i]) + {ts[i][0], ts[i][1]}
  {
    PrefixNext(ts, i);
    assert Chars(ts[i]) == {ts[i][0], ts[i][1]};
  }

  /** The board after swapping the new pair's letters belongs to the longer list of pairs. */
  lemma SwapExtends(prefix: seq<string>, ts: seq<string>, board: seq<char>)
    requires |ts| == |prefix| + 1 && ts[..|prefix|] == prefix && PairsOk(prefix)
    requires PairCheck(Seen(prefix), ts[|prefix|]) == None
    requires |board| == 26
    requires board[Ord(ts[|prefix|][0])] == ts[|prefix|][1] && board[Ord(ts[|prefix|][1])] == ts[|prefix|][0]
    requires forall k | 0 <= k < 26 && k != Ord(ts[|prefix|][0]) && k != Ord(ts[|prefix|][1]) ::
      board[k] == Partner(prefix, Chr(k))
    ensures PairsOk(ts) && IsBoardOf(ts, board)
  {
    var t := ts[|prefix|];
    forall k | 0 <= k < 26
      ensures board[k] == Partner(ts, Chr(k))
    {
      ChrOrd(t[0]);
      ChrOrd(t[1]);
    }
  }
}
