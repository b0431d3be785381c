/**
 * The historical wirings the machine ships with: eight rotors, each with
 * its turnover letters, and four reflectors. Each rotor wiring is shown to
 * be a permutation of the alphabet, so that a `Rotor` can be built from it,
 * and each reflector wiring to pass the reflector check with no letter
 * wired to itself.
 *
 * A rotor's permutation proof goes through its decoding table, written out
 * next to it: the wiring followed by the table, and the table followed by
 * the wiring, both give back every letter.
 */
module Wirings {
  import opened Substitution
  import opened Reflectors

  const RotorI: string := "ekmflgdqvzntowyhxuspaibrcj"
  const RotorITurnover: string := "q"
  const RotorIDecoding: string := "uwygadfpvzbeckmthxslrinqoj"

  const RotorII: string := "ajdksiruxblhwtmcqgznpyfvoe"
  const RotorIITurnover: string := "e"
  const RotorIIDecoding: string := "ajpczwrlfbdkotyuqgenhxmivs"

  const RotorIII: string := "bdfhjlcprtxvznyeiwgakmusqo"
  const RotorIIITurnover: string := "v"
  const RotorIIIDecoding: string := "tagbpcsdqeufvnzhyixjwlrkom"

  const RotorIV: string := "esovpzjayquirhxlnftgkdcmwb"
  const RotorIVTurnover: string := "j"
  const RotorIVDecoding: string := "hzwvartnlgupxqcejmbskdyoif"

  const RotorV: string := "vzbrgityupsdnhlxawmjqofeck"
  const RotorVTurnover: string := "z"
  const RotorVDecoding: string := "qcylxwenftzosmvjudkgiarphb"

  const RotorVI: string := "jpgvoumfyqbenhzrdkasxlictw"
  const RotorVITurnover: string := "zm"
  const RotorVIDecoding: string := "skxqlhcnwarvgmebjptyfdzuio"

  const RotorVII: string := "nzjhgrcxmyswboufaivlpekqdt"
  const RotorVIITurnover: string := "zm"
  const RotorVIIDecoding: string := "qmgyvpedrcwtianuxfkzoslhjb"

  const RotorVIII: string := "fkqhtlxocbjspdzramewniuygv"
  const RotorVIIITurnover: string := "zm"
  const RotorVIIIDecoding: string := "qjinsaydvkbfruhmcplewztgxo"

  const ReflectorB: string := "yruhqsldpxngokmiebfzcwvjat"

  const ReflectorBThin: string := "enkqauywjicopblmdxzvfthrgs"

  const ReflectorC: string := "fvpjiaoyedrzxwgctkuqsbnmhl"

  const ReflectorCThin: string := "rdobjntkvehmlfcwzaxgyipsuq"

  lemma RotorIForward()
    ensures forall k | 0 <= k < 26 :: IsLetter(RotorI[k]) && RotorIDecoding[Ord(RotorI[k])] == Chr(k)
  {
  }

  lemma RotorIBackward()
    ensures forall k | 0 <= k < 26 :: IsLetter(RotorIDecoding[k]) && RotorI[Ord(RotorIDecoding[k])] == Chr(k)
  {
  }

  /** Rotor I is a permutation, and its decoding table is the decoding through it. */
  lemma RotorIPermutation()
    ensures IsPermutation(RotorI)
    ensures forall y | IsLetter(y) :: y in RotorI && Decode(RotorI, y) == Encode(RotorIDecoding, y)
  {
    RotorIForward();
    RotorIBackward();
    InverseIsPermutation(RotorI, RotorIDecoding);
    forall y | IsLetter(y)
      ensures y in RotorI && Decode(RotorI, y) == Encode(RotorIDecoding, y)
    {
      InverseDecodes(RotorI, RotorIDecoding, y);
    }
  }

  lemma RotorIIForward()
    ensures forall k | 0 <= k < 26 :: IsLetter(RotorII[k]) && RotorIIDecoding[Ord(RotorII[k])] == Chr(k)
  {
  }

  lemma RotorIIBackward()
    ensures forall k | 0 <= k < 26 :: IsLetter(RotorIIDecoding[k]) && RotorII[Ord(RotorIIDecoding[k])] == Chr(k)
  {
  }

  /** Rotor II is a permutation, and its decoding table is the decoding through it. */
  lemma RotorIIPermutation()
    ensures IsPermutation(RotorII)
    ensures forall y | IsLetter(y) :: y in RotorII && Decode(RotorII, y) == Encode(RotorIIDecoding, y)
  {
    RotorIIForward();
    RotorIIBackward();
    InverseIsPermutation(RotorII, RotorIIDecoding);
    forall y | IsLetter(y)
      ensures y in RotorII && Decode(RotorII, y) == Encode(RotorIIDecoding, y)
    {
      InverseDecodes(RotorII, RotorIIDecoding, y);
    }
  }

  lemma RotorIIIForward()
    ensures forall k | 0 <= k < 26 :: IsLetter(RotorIII[k]) && RotorIIIDecoding[Ord(RotorIII[k])] == Chr(k)
  {
  }

  lemma RotorIIIBackward()
    ensures forall k | 0 <= k < 26 :: IsLetter(RotorIIIDecoding[k]) && RotorIII[Ord(RotorIIIDecoding[k])] == Chr(k)
  {
  }

  /** Rotor III is a permutation, and its decoding table is the decoding through it. */
  lemma RotorIIIPermutation()
    ensures IsPermutation(RotorIII)
    ensures forall y | IsLetter(y) :: y in RotorIII && Decode(RotorIII, y) == Encode(RotorIIIDecoding, y)
  {
    RotorIIIForward();
    RotorIIIBackward();
    InverseIsPermutation(RotorIII, RotorIIIDecoding);
    forall y | IsLetter(y)
      ensures y in RotorIII && Decode(RotorIII, y) == Encode(RotorIIIDecoding, y)
    {
      InverseDecodes(RotorIII, RotorIIIDecoding, y);
    }
  }

  lemma RotorIVForward()
    ensures forall k | 0 <= k < 26 :: IsLetter(RotorIV[k]) && RotorIVDecoding[Ord(RotorIV[k])] == Chr(k)
  {
  }

  lemma RotorIVBackward()
    ensures forall k | 0 <= k < 26 :: IsLetter(RotorIVDecoding[k]) && RotorIV[Ord(RotorIVDecoding[k])] == Chr(k)
  {
  }

  /** Rotor IV is a permutation, and its decoding table is the decoding through it. */
  lemma RotorIVPermutation()
    ensures IsPermutation(RotorIV)
    ensures forall y | IsLetter(y) :: y in RotorIV && Decode(RotorIV, y) == Encode(RotorIVDecoding, y)
  {
    RotorIVForward();
    RotorIVBackward();
    InverseIsPermutation(RotorIV, RotorIVDecoding);
    forall y | IsLetter(y)
      ensures y in RotorIV && Decode(RotorIV, y) == Encode(RotorIVDecoding, y)
    {
      InverseDecodes(RotorIV, RotorIVDecoding, y);
    }
  }

  lemma RotorVForward()
    ensures forall k | 0 <= k < 26 :: IsLetter(RotorV[k]) && RotorVDecoding[Ord(RotorV[k])] == Chr(k)
  {
  }

  lemma RotorVBackward()
    ensures forall k | 0 <= k < 26 :: IsLetter(RotorVDecoding[k]) && RotorV[Ord(RotorVDecoding[k])] == Chr(k)
  {
  }

  /** Rotor V is a permutation, and its decoding table is the decoding through it. */
  lemma RotorVPermutation()
    ensures IsPermutation(RotorV)
    ensures forall y | IsLetter(y) :: y in RotorV && Decode(RotorV, y) == Encode(RotorVDecoding, y)
  {
    RotorVForward();
    RotorVBackward();
    InverseIsPermutation(RotorV, RotorVDecoding);
    forall y | IsLetter(y)
      ensures y in RotorV && Decode(RotorV, y) == Encode(RotorVDecoding, y)
    {
      InverseDecodes(RotorV, RotorVDecoding, y);
    }
  }

  lemma RotorVIForward()
    ensures forall k | 0 <= k < 26 :: IsLetter(RotorVI[k]) && RotorVIDecoding[Ord(RotorVI[k])] == Chr(k)
  {
  }

  lemma RotorVIBackward()
    ensures forall k | 0 <= k < 26 :: IsLetter(RotorVIDecoding[k]) && RotorVI[Ord(RotorVIDecoding[k])] == Chr(k)
  {
  }

  /** Rotor VI is a permutation, and its decoding table is the decoding through it. */
  lemma RotorVIPermutation()
    ensures IsPermutation(RotorVI)
    ensures forall y | IsLetter(y) :: y in RotorVI && Decode(RotorVI, y) == Encode(RotorVIDecoding, y)
  {
    RotorVIForward();
    RotorVIBackward();
    InverseIsPermutation(RotorVI, RotorVIDecoding);
    forall y | IsLetter(y)
      ensures y in RotorVI && Decode(RotorVI, y) == Encode(RotorVIDecoding, y)
    {
      InverseDecodes(RotorVI, RotorVIDecoding, y);
    }
  }

  lemma RotorVIIForward()
    ensures forall k | 0 <= k < 26 :: IsLetter(RotorVII[k]) && RotorVIIDecoding[Ord(RotorVII[k])] == Chr(k)
  {
  }

  lemma RotorVIIBackward()
    ensures forall k | 0 <= k < 26 :: IsLetter(RotorVIIDecoding[k]) && RotorVII[Ord(RotorVIIDecoding[k])] == Chr(k)
  {
  }

  /** Rotor VII is a permutation, and its decoding table is the decoding through it. */
  lemma RotorVIIPermutation()
    ensures IsPermutation(RotorVII)
    ensures forall y | IsLetter(y) :: y in RotorVII && Decode(RotorVII, y) == Encode(RotorVIIDecoding, y)
  {
    RotorVIIForward();
    RotorVIIBackward();
    InverseIsPermutation(RotorVII, RotorVIIDecoding);
    forall y | IsLetter(y)
      ensures y in RotorVII && Decode(RotorVII, y) == Encode(RotorVIIDecoding, y)
    {
      InverseDecodes(RotorVII, RotorVIIDecoding, y);
    }
  }

  lemma RotorVIIIForward()
    ensures forall k | 0 <= k < 26 :: IsLetter(RotorVIII[k]) && RotorVIIIDecoding[Ord(RotorVIII[k])] == Chr(k)
  {
  }

  lemma RotorVIIIBackward()
    ensures forall k | 0 <= k < 26 :: IsLetter(RotorVIIIDecoding[k]) && RotorVIII[Ord(RotorVIIIDecoding[k])] == Chr(k)
  {
  }

  /** Rotor VIII is a permutation, and its decoding table is the decoding through it. */
  lemma RotorVIIIPermutation()
    ensures IsPermutation(RotorVIII)
    ensures forall y | IsLetter(y) :: y in RotorVIII && Decode(RotorVIII, y) == Encode(RotorVIIIDecoding, y)
  {
    RotorVIIIForward();
    RotorVIIIBackward();
    InverseIsPermutation(RotorVIII, RotorVIIIDecoding);
    forall y | IsLetter(y)
      ensures y in RotorVIII && Decode(RotorVIII, y) == Encode(RotorVIIIDecoding, y)
    {
      InverseDecodes(RotorVIII, RotorVIIIDecoding, y);
    }
  }

  lemma ReflectorBSymmetric()
    ensures forall k | 0 <= k < 26 :: IsLetter(ReflectorB[k]) && ReflectorB[Ord(ReflectorB[k])] == Chr(k)
  {
  }

  lemma ReflectorBUnfixed()
    ensures !HasFixedPoint(ReflectorB)
  {
  }

  /** Reflector B passes the reflector check and wires no letter to itself. */
  lemma ReflectorBValid()
    ensures IsReflectorWiring(ReflectorB) && !HasFixedPoint(ReflectorB)
  {
    ReflectorBSymmetric();
    SelfInverseIsReflector(ReflectorB);
    ReflectorBUnfixed();
  }

  lemma ReflectorBThinSymmetric()
    ensures forall k | 0 <= k < 26 :: IsLetter(ReflectorBThin[k]) && ReflectorBThin[Ord(ReflectorBThin[k])] == Chr(k)
  {
  }

  lemma ReflectorBThinUnfixed()
    ensures !HasFixedPoint(ReflectorBThin)
  {
  }

  /** Reflector BThin passes the reflector check and wires no letter to itself. */
  lemma ReflectorBThinValid()
    ensures IsReflectorWiring(ReflectorBThin) && !HasFixedPoint(ReflectorBThin)
  {
    ReflectorBThinSymmetric();
    SelfInverseIsReflector(ReflectorBThin);
    ReflectorBThinUnfixed();
  }

  lemma ReflectorCSymmetric()
    ensures forall k | 0 <= k < 26 :: IsLetter(ReflectorC[k]) && ReflectorC[Ord(ReflectorC[k])] == Chr(k)
  {
  }

  lemma ReflectorCUnfixed()
    ensures !HasFixedPoint(ReflectorC)
  {
  }

  /** Reflector C passes the reflector check and wires no letter to itself. */
  lemma ReflectorCValid()
    ensures IsReflectorWiring(ReflectorC) && !HasFixedPoint(ReflectorC)
  {
    ReflectorCSymmetric();
    SelfInverseIsReflector(ReflectorC);
    ReflectorCUnfixed();
  }

  lemma ReflectorCThinSymmetric()
    ensures forall k | 0 <= k < 26 :: IsLetter(ReflectorCThin[k]) && ReflectorCThin[Ord(ReflectorCThin[k])] == Chr(k)
  {
  }

  lemma ReflectorCThinUnfixed()
    ensures !HasFixedPoint(ReflectorCThin)
  {
  }

  /** Reflector CThin passes the reflector check and wires no letter to itself. */
  lemma ReflectorCThinValid()
    ensures IsReflectorWiring(ReflectorCThin) && !HasFixedPoint(ReflectorCThin)
  {
    ReflectorCThinSymmetric();
    SelfInverseIsReflector(ReflectorCThin);
    ReflectorCThinUnfixed();
  }
}
