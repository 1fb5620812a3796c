/**
  The tables of the hash, checked against how FIPS 180-4 defines them: fractional parts of the
  square and cube roots of the first primes. Each case names the root, scaled by 2^32.
 */
module Fips180Constants {
  import opened Fips180

  const PRIMES_0: seq<nat> := [
    2, 3, 5, 7, 11, 13, 17, 19,
    23, 29, 31, 37, 41, 43, 47, 53]
  const PRIMES_1: seq<nat> := [
    59, 61, 67, 71, 73, 79, 83, 89,
    97, 101, 103, 107, 109, 113, 127, 131]
  const PRIMES_2: seq<nat> := [
    137, 139, 149, 151, 157, 163, 167, 173,
    179, 181, 191, 193, 197, 199, 211, 223]
  const PRIMES_3: seq<nat> := [
    227, 229, 233, 239, 241, 251, 257, 263,
    269, 271, 277, 281, 283, 293, 307, 311]
  const PRIMES: seq<nat> := PRIMES_0 + PRIMES_1 + PRIMES_2 + PRIMES_3


  /** k is the first 32 bits of the fractional part of the cube root of p. */
  ghost predicate IsCubeRootFraction(k: word, p: nat) {
    exists n: nat :: IsScaledCubeRoot(n, p) && n % 0x1_0000_0000 == k as nat
  }

  /** n is the cube root of p, times 2^32, rounded down. */
  ghost predicate IsScaledCubeRoot(n: nat, p: nat) {
    n * n * n <= p * 0x1_00000000_00000000_00000000 < (n + 1) * (n + 1) * (n + 1)
  }

  /** k is the first 32 bits of the fractional part of the square root of p. */
  ghost predicate IsSquareRootFraction(k: word, p: nat) {
    exists n: nat :: IsScaledSquareRoot(n, p) && n % 0x1_0000_0000 == k as nat
  }

  /** n is the square root of p, times 2^32, rounded down. */
  ghost predicate IsScaledSquareRoot(n: nat, p: nat) {
    n * n <= p * 0x1_00000000_00000000 < (n + 1) * (n + 1)
  }

  lemma CubeRootWitness(k: word, p: nat, n: nat)
    requires IsScaledCubeRoot(n, p) && n % 0x1_0000_0000 == k as nat
    ensures IsCubeRootFraction(k, p)
  {
  }

  lemma SquareRootWitness(k: word, p: nat, n: nat)
    requires IsScaledSquareRoot(n, p) && n % 0x1_0000_0000 == k as nat
    ensures IsSquareRootFraction(k, p)
  {
  }

  lemma RoundConstants0(t: nat)
    requires 0 <= t < 8
    ensures IsCubeRootFraction(K[t], PRIMES[t])
  {
    match t {
      case 0 => CubeRootWitness(0x428a2f98, 2, 0x1_428a2f98);
      case 1 => CubeRootWitness(0x71374491, 3, 0x1_71374491);
      case 2 => CubeRootWitness(0xb5c0fbcf, 5, 0x1_b5c0fbcf);
      case 3 => CubeRootWitness(0xe9b5dba5, 7, 0x1_e9b5dba5);
      case 4 => CubeRootWitness(0x3956c25b, 11, 0x2_3956c25b);
      case 5 => CubeRootWitness(0x59f111f1, 13, 0x2_59f111f1);
      case 6 => CubeRootWitness(0x923f82a4, 17, 0x2_923f82a4);
      case 7 => CubeRootWitness(0xab1c5ed5, 19, 0x2_ab1c5ed5);
    }
  }

  lemma RoundConstants1(t: nat)
    requires 8 <= t < 16
    ensures IsCubeRootFraction(K[t], PRIMES[t])
  {
    match t {
      case 8 => CubeRootWitness(0xd807aa98, 23, 0x2_d807aa98);
      case 9 => CubeRootWitness(0x12835b01, 29, 0x3_12835b01);
      case 10 => CubeRootWitness(0x243185be, 31, 0x3_243185be);
      case 11 => CubeRootWitness(0x550c7dc3, 37, 0x3_550c7dc3);
      case 12 => CubeRootWitness(0x72be5d74, 41, 0x3_72be5d74);
      case 13 => CubeRootWitness(0x80deb1fe, 43, 0x3_80deb1fe);
      case 14 => CubeRootWitness(0x9bdc06a7, 47, 0x3_9bdc06a7);
      case 15 => CubeRootWitness(0xc19bf174, 53, 0x3_c19bf174);
    }
  }

  lemma RoundConstants2(t: nat)
    requires 16 <= t < 24
    ensures IsCubeRootFraction(K[t], PRIMES[t])
  {
    match t {
      case 16 => CubeRootWitness(0xe49b69c1, 59, 0x3_e49b69c1);
      case 17 => CubeRootWitness(0xefbe4786, 61, 0x3_efbe4786);
      case 18 => CubeRootWitness(0x0fc19dc6, 67, 0x4_0fc19dc6);
      case 19 => CubeRootWitness(0x240ca1cc, 71, 0x4_240ca1cc);
      case 20 => CubeRootWitness(0x2de92c6f, 73, 0x4_2de92c6f);
      case 21 => CubeRootWitness(0x4a7484aa, 79, 0x4_4a7484aa);
      case 22 => CubeRootWitness(0x5cb0a9dc, 83, 0x4_5cb0a9dc);
      case 23 => CubeRootWitness(0x76f988da, 89, 0x4_76f988da);
    }
  }

  lemma RoundConstants3(t: nat)
    requires 24 <= t < 32
    ensures IsCubeRootFraction(K[t], PRIMES[t])
  {
    match t {
      case 24 => CubeRootWitness(0x983e5152, 97, 0x4_983e5152);
      case 25 => CubeRootWitness(0xa831c66d, 101, 0x4_a831c66d);
      case 26 => CubeRootWitness(0xb00327c8, 103, 0x4_b00327c8);
      case 27 => CubeRootWitness(0xbf597fc7, 107, 0x4_bf597fc7);
      case 28 => CubeRootWitness(0xc6e00bf3, 109, 0x4_c6e00bf3);
      case 29 => CubeRootWitness(0xd5a79147, 113, 0x4_d5a79147);
      case 30 => CubeRootWitness(0x06ca6351, 127, 0x5_06ca6351);
      case 31 => CubeRootWitness(0x14292967, 131, 0x5_14292967);
    }
  }

  lemma RoundConstants4(t: nat)
    requires 32 <= t < 40
    ensures IsCubeRootFraction(K[t], PRIMES[t])
  {
    match t {
      case 32 => CubeRootWitness(0x27b70a85, 137, 0x5_27b70a85);
      case 33 => CubeRootWitness(0x2e1b2138, 139, 0x5_2e1b2138);
      case 34 => CubeRootWitness(0x4d2c6dfc, 149, 0x5_4d2c6dfc);
      case 35 => CubeRootWitness(0x53380d13, 151, 0x5_53380d13);
      case 36 => CubeRootWitness(0x650a7354, 157, 0x5_650a7354);
      case 37 => CubeRootWitness(0x766a0abb, 163, 0x5_766a0abb);
      case 38 => CubeRootWitness(0x81c2c92e, 167, 0x5_81c2c92e);
      case 39 => CubeRootWitness(0x92722c85, 173, 0x5_92722c85);
    }
  }

  lemma RoundConstants5(t: nat)
    requires 40 <= t < 48
    ensures IsCubeRootFraction(K[t], PRIMES[t])
  {
    match t {
      case 40 => CubeRootWitness(0xa2bfe8a1, 179, 0x5_a2bfe8a1);
      case 41 => CubeRootWitness(0xa81a664b, 181, 0x5_a81a664b);
      case 42 => CubeRootWitness(0xc24b8b70, 191, 0x5_c24b8b70);
      case 43 => CubeRootWitness(0xc76c51a3, 193, 0x5_c76c51a3);
      case 44 => CubeRootWitness(0xd192e819, 197, 0x5_d192e819);
      case 45 => CubeRootWitness(0xd6990624, 199, 0x5_d6990624);
      case 46 => CubeRootWitness(0xf40e3585, 211, 0x5_f40e3585);
      case 47 => CubeRootWitness(0x106aa070, 223, 0x6_106aa070);
    }
  }

  lemma RoundConstants6(t: nat)
    requires 48 <= t < 56
    ensures IsCubeRootFraction(K[t], PRIMES[t])
  {
    match t {
      case 48 => CubeRootWitness(0x19a4c116, 227, 0x6_19a4c116);
      case 49 => CubeRootWitness(0x1e376c08, 229, 0x6_1e376c08);
      case 50 => CubeRootWitness(0x2748774c, 233, 0x6_2748774c);
      case 51 => CubeRootWitness(0x34b0bcb5, 239, 0x6_34b0bcb5);
      case 52 => CubeRootWitness(0x391c0cb3, 241, 0x6_391c0cb3);
      case 53 => CubeRootWitness(0x4ed8aa4a, 251, 0x6_4ed8aa4a);
      case 54 => CubeRootWitness(0x5b9cca4f, 257, 0x6_5b9cca4f);
      case 55 => CubeRootWitness(0x682e6ff3, 263, 0x6_682e6ff3);
    }
  }

  lemma RoundConstants7(t: nat)
    requires 56 <= t < 64
    ensures IsCubeRootFraction(K[t], PRIMES[t])
  {
    match t {
      case 56 => CubeRootWitness(0x748f82ee, 269, 0x6_748f82ee);
      case 57 => CubeRootWitness(0x78a5636f, 271, 0x6_78a5636f);
      case 58 => CubeRootWitness(0x84c87814, 277, 0x6_84c87814);
      case 59 => CubeRootWitness(0x8cc70208, 281, 0x6_8cc70208);
      case 60 => CubeRootWitness(0x90befffa, 283, 0x6_90befffa);
      case 61 => CubeRootWitness(0xa4506ceb, 293, 0x6_a4506ceb);
      case 62 => CubeRootWitness(0xbef9a3f7, 307, 0x6_bef9a3f7);
      case 63 => CubeRootWitness(0xc67178f2, 311, 0x6_c67178f2);
    }
  }

  /** Section 4.2.2: the round constants are the cube roots of the first sixty-four primes. */
  lemma RoundConstant(t: nat)
    requires t < 64
    ensures IsCubeRootFraction(K[t], PRIMES[t])
  {
    match t / 8 {
      case 0 => RoundConstants0(t);
      case 1 => RoundConstants1(t);
      case 2 => RoundConstants2(t);
      case 3 => RoundConstants3(t);
      case 4 => RoundConstants4(t);
      case 5 => RoundConstants5(t);
      case 6 => RoundConstants6(t);
      case 7 => RoundConstants7(t);
    }
  }

  /** Section 5.3.3: the initial hash value is the square roots of the first eight primes. */
  lemma InitialHashWord(i: nat)
    requires i < 8
    ensures IsSquareRootFraction(H0[i], PRIMES[i])
  {
    match i {
      case 0 => SquareRootWitness(0x6a09e667, 2, 0x1_6a09e667);
      case 1 => SquareRootWitness(0xbb67ae85, 3, 0x1_bb67ae85);
      case 2 => SquareRootWitness(0x3c6ef372, 5, 0x2_3c6ef372);
      case 3 => SquareRootWitness(0xa54ff53a, 7, 0x2_a54ff53a);
      case 4 => SquareRootWitness(0x510e527f, 11, 0x3_510e527f);
      case 5 => SquareRootWitness(0x9b05688c, 13, 0x3_9b05688c);
      case 6 => SquareRootWitness(0x1f83d9ab, 17, 0x4_1f83d9ab);
      case 7 => SquareRootWitness(0x5be0cd19, 19, 0x4_5be0cd19);
    }
  }
}
