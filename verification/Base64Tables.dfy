/**
  The two tables of the codec, as they stand. They disagree on one value: the encoder writes '_'
  for 63, the decoder reads '/' as 63 and skips '_'.
 */
module Base64Tables {
  import opened Bits

  /** The decoder's mark for a character outside its alphabet: a char of -1. */
  const SKIP: byte := 0xFF

  const ENCTABLE: string :=
    "ABCDEFGHIJKLMNOP" + "QRSTUVWXYZabcdef" + "ghijklmnopqrstuv" + "wxyz0123456789+_"

  const DECTABLE_0: seq<byte> := [
    SKIP, SKIP, SKIP, SKIP, SKIP, SKIP, SKIP, SKIP, SKIP, SKIP, SKIP, SKIP, SKIP, SKIP, SKIP, SKIP]
  const DECTABLE_1: seq<byte> := [
    SKIP, SKIP, SKIP, SKIP, SKIP, SKIP, SKIP, SKIP, SKIP, SKIP, SKIP, SKIP, SKIP, SKIP, SKIP, SKIP]
  const DECTABLE_2: seq<byte> := [
    SKIP, SKIP, SKIP, SKIP, SKIP, SKIP, SKIP, SKIP, SKIP, SKIP, SKIP, 62, SKIP, SKIP, SKIP, 63]
  const DECTABLE_3: seq<byte> := [
    52, 53, 54, 55, 56, 57, 58, 59, 60, 61, SKIP, SKIP, SKIP, SKIP, SKIP, SKIP]
  const DECTABLE_4: seq<byte> := [
    SKIP, 0, 1, 2, 3, 4, 5, 6, 7, 8, 9, 10, 11, 12, 13, 14]
  const DECTABLE_5: seq<byte> := [
    15, 16, 17, 18, 19, 20, 21, 22, 23, 24, 25, SKIP, SKIP, SKIP, SKIP, SKIP]
  const DECTABLE_6: seq<byte> := [
    SKIP, 26, 27, 28, 29, 30, 31, 32, 33, 34, 35, 36, 37, 38, 39, 40]
  const DECTABLE_7: seq<byte> := [
    41, 42, 43, 44, 45, 46, 47, 48, 49, 50, 51, SKIP, SKIP, SKIP, SKIP, SKIP]
  const DECTABLE: seq<byte> :=
    DECTABLE_0 + DECTABLE_1 + DECTABLE_2 + DECTABLE_3 + DECTABLE_4 + DECTABLE_5 + DECTABLE_6 + DECTABLE_7

  const ENCODED_63: char := '_'
  const PAD: char := '='

  // ----- the alphabets by ranges, without the tables -----

  /** The character code of a six-bit value in the encoder's alphabet. */
  function CodeOf(v: nat): nat
    requires v < 64
  {
    if v < 26 then 'A' as int + v
    else if v < 52 then 'a' as int + (v - 26)
    else if v < 62 then '0' as int + (v - 52)
    else if v == 62 then '+' as int
    else '_' as int
  }

  /** The decoder's value for a character code, 255 for a character outside its alphabet. */
  function ValueOf(n: nat): nat {
    if 'A' as int <= n <= 'Z' as int then n - 'A' as int
    else if 'a' as int <= n <= 'z' as int then n - 'a' as int + 26
    else if '0' as int <= n <= '9' as int then n - '0' as int + 52
    else if n == '+' as int then 62
    else if n == '/' as int then 63
    else 255
  }

  lemma Writes0(i: nat)
    requires 0 <= i < 8
    ensures ENCTABLE[i] as int == CodeOf(i)
  {
    match i {
      case 0 => assert ENCTABLE[0] == 'A';
      case 1 => assert ENCTABLE[1] == 'B';
      case 2 => assert ENCTABLE[2] == 'C';
      case 3 => assert ENCTABLE[3] == 'D';
      case 4 => assert ENCTABLE[4] == 'E';
      case 5 => assert ENCTABLE[5] == 'F';
      case 6 => assert ENCTABLE[6] == 'G';
      case 7 => assert ENCTABLE[7] == 'H';
    }
  }

  lemma Writes1(i: nat)
    requires 8 <= i < 16
    ensures ENCTABLE[i] as int == CodeOf(i)
  {
    match i {
      case 8 => assert ENCTABLE[8] == 'I';
      case 9 => assert ENCTABLE[9] == 'J';
      case 10 => assert ENCTABLE[10] == 'K';
      case 11 => assert ENCTABLE[11] == 'L';
      case 12 => assert ENCTABLE[12] == 'M';
      case 13 => assert ENCTABLE[13] == 'N';
      case 14 => assert ENCTABLE[14] == 'O';
      case 15 => assert ENCTABLE[15] == 'P';
    }
  }

  lemma Writes2(i: nat)
    requires 16 <= i < 24
    ensures ENCTABLE[i] as int == CodeOf(i)
  {
    match i {
      case 16 => assert ENCTABLE[16] == 'Q';
      case 17 => assert ENCTABLE[17] == 'R';
      case 18 => assert ENCTABLE[18] == 'S';
      case 19 => assert ENCTABLE[19] == 'T';
      case 20 => assert ENCTABLE[20] == 'U';
      case 21 => assert ENCTABLE[21] == 'V';
      case 22 => assert ENCTABLE[22] == 'W';
      case 23 => assert ENCTABLE[23] == 'X';
    }
  }

  lemma Writes3(i: nat)
    requires 24 <= i < 32
    ensures ENCTABLE[i] as int == CodeOf(i)
  {
    match i {
      case 24 => assert ENCTABLE[24] == 'Y';
      case 25 => assert ENCTABLE[25] == 'Z';
      case 26 => assert ENCTABLE[26] == 'a';
      case 27 => assert ENCTABLE[27] == 'b';
      case 28 => assert ENCTABLE[28] == 'c';
      case 29 => assert ENCTABLE[29] == 'd';
      case 30 => assert ENCTABLE[30] == 'e';
      case 31 => assert ENCTABLE[31] == 'f';
    }
  }

  lemma Writes4(i: nat)
    requires 32 <= i < 40
    ensures ENCTABLE[i] as int == CodeOf(i)
  {
    match i {
      case 32 => assert ENCTABLE[32] == 'g';
      case 33 => assert ENCTABLE[33] == 'h';
      case 34 => assert ENCTABLE[34] == 'i';
      case 35 => assert ENCTABLE[35] == 'j';
      case 36 => assert ENCTABLE[36] == 'k';
      case 37 => assert ENCTABLE[37] == 'l';
      case 38 => assert ENCTABLE[38] == 'm';
      case 39 => assert ENCTABLE[39] == 'n';
    }
  }

  lemma Writes5(i: nat)
    requires 40 <= i < 48
    ensures ENCTABLE[i] as int == CodeOf(i)
  {
    match i {
      case 40 => assert ENCTABLE[40] == 'o';
      case 41 => assert ENCTABLE[41] == 'p';
      case 42 => assert ENCTABLE[42] == 'q';
      case 43 => assert ENCTABLE[43] == 'r';
      case 44 => assert ENCTABLE[44] == 's';
      case 45 => assert ENCTABLE[45] == 't';
      case 46 => assert ENCTABLE[46] == 'u';
      case 47 => assert ENCTABLE[47] == 'v';
    }
  }

  lemma Writes6(i: nat)
    requires 48 <= i < 56
    ensures ENCTABLE[i] as int == CodeOf(i)
  {
    match i {
      case 48 => assert ENCTABLE[48] == 'w';
      case 49 => assert ENCTABLE[49] == 'x';
      case 50 => assert ENCTABLE[50] == 'y';
      case 51 => assert ENCTABLE[51] == 'z';
      case 52 => assert ENCTABLE[52] == '0';
      case 53 => assert ENCTABLE[53] == '1';
      case 54 => assert ENCTABLE[54] == '2';
      case 55 => assert ENCTABLE[55] == '3';
    }
  }

  lemma Writes7(i: nat)
    requires 56 <= i < 64
    ensures ENCTABLE[i] as int == CodeOf(i)
  {
    match i {
      case 56 => assert ENCTABLE[56] == '4';
      case 57 => assert ENCTABLE[57] == '5';
      case 58 => assert ENCTABLE[58] == '6';
      case 59 => assert ENCTABLE[59] == '7';
      case 60 => assert ENCTABLE[60] == '8';
      case 61 => assert ENCTABLE[61] == '9';
      case 62 => assert ENCTABLE[62] == '+';
      case 63 => assert ENCTABLE[63] == '_';
    }
  }

  lemma Reads0(n: nat)
    requires 0 <= n < 16
    ensures DECTABLE[n] as int == ValueOf(n)
  {
    assert DECTABLE[n] == DECTABLE_0[n - 0];
  }

  lemma Reads1(n: nat)
    requires 16 <= n < 32
    ensures DECTABLE[n] as int == ValueOf(n)
  {
    assert DECTABLE[n] == DECTABLE_1[n - 16];
  }

  lemma Reads2(n: nat)
    requires 32 <= n < 48
    ensures DECTABLE[n] as int == ValueOf(n)
  {
    assert DECTABLE[n] == DECTABLE_2[n - 32];
    match n {
      case 32 => assert DECTABLE_2[0] == SKIP;
      case 33 => assert DECTABLE_2[1] == SKIP;
      case 34 => assert DECTABLE_2[2] == SKIP;
      case 35 => assert DECTABLE_2[3] == SKIP;
      case 36 => assert DECTABLE_2[4] == SKIP;
      case 37 => assert DECTABLE_2[5] == SKIP;
      case 38 => assert DECTABLE_2[6] == SKIP;
      case 39 => assert DECTABLE_2[7] == SKIP;
      case 40 => assert DECTABLE_2[8] == SKIP;
      case 41 => assert DECTABLE_2[9] == SKIP;
      case 42 => assert DECTABLE_2[10] == SKIP;
      case 43 => assert DECTABLE_2[11] == 62;
      case 44 => assert DECTABLE_2[12] == SKIP;
      case 45 => assert DECTABLE_2[13] == SKIP;
      case 46 => assert DECTABLE_2[14] == SKIP;
      case 47 => assert DECTABLE_2[15] == 63;
    }
  }

  lemma Reads3(n: nat)
    requires 48 <= n < 64
    ensures DECTABLE[n] as int == ValueOf(n)
  {
    assert DECTABLE[n] == DECTABLE_3[n - 48];
    match n {
      case 48 => assert DECTABLE_3[0] == 52;
      case 49 => assert DECTABLE_3[1] == 53;
      case 50 => assert DECTABLE_3[2] == 54;
      case 51 => assert DECTABLE_3[3] == 55;
      case 52 => assert DECTABLE_3[4] == 56;
      case 53 => assert DECTABLE_3[5] == 57;
      case 54 => assert DECTABLE_3[6] == 58;
      case 55 => assert DECTABLE_3[7] == 59;
      case 56 => assert DECTABLE_3[8] == 60;
      case 57 => assert DECTABLE_3[9] == 61;
      case 58 => assert DECTABLE_3[10] == SKIP;
      case 59 => assert DECTABLE_3[11] == SKIP;
      case 60 => assert DECTABLE_3[12] == SKIP;
      case 61 => assert DECTABLE_3[13] == SKIP;
      case 62 => assert DECTABLE_3[14] == SKIP;
      case 63 => assert DECTABLE_3[15] == SKIP;
    }
  }

  lemma Reads4(n: nat)
    requires 64 <= n < 80
    ensures DECTABLE[n] as int == ValueOf(n)
  {
    assert DECTABLE[n] == DECTABLE_4[n - 64];
    match n {
      case 64 => assert DECTABLE_4[0] == SKIP;
      case 65 => assert DECTABLE_4[1] == 0;
      case 66 => assert DECTABLE_4[2] == 1;
      case 67 => assert DECTABLE_4[3] == 2;
      case 68 => assert DECTABLE_4[4] == 3;
      case 69 => assert DECTABLE_4[5] == 4;
      case 70 => assert DECTABLE_4[6] == 5;
      case 71 => assert DECTABLE_4[7] == 6;
      case 72 => assert DECTABLE_4[8] == 7;
      case 73 => assert DECTABLE_4[9] == 8;
      case 74 => assert DECTABLE_4[10] == 9;
      case 75 => assert DECTABLE_4[11] == 10;
      case 76 => assert DECTABLE_4[12] == 11;
      case 77 => assert DECTABLE_4[13] == 12;
      case 78 => assert DECTABLE_4[14] == 13;
      case 79 => assert DECTABLE_4[15] == 14;
    }
  }

  lemma Reads5(n: nat)
    requires 80 <= n < 96
    ensures DECTABLE[n] as int == ValueOf(n)
  {
    assert DECTABLE[n] == DECTABLE_5[n - 80];
    match n {
      case 80 => assert DECTABLE_5[0] == 15;
      case 81 => assert DECTABLE_5[1] == 16;
      case 82 => assert DECTABLE_5[2] == 17;
      case 83 => assert DECTABLE_5[3] == 18;
      case 84 => assert DECTABLE_5[4] == 19;
      case 85 => assert DECTABLE_5[5] == 20;
      case 86 => assert DECTABLE_5[6] == 21;
      case 87 => assert DECTABLE_5[7] == 22;
      case 88 => assert DECTABLE_5[8] == 23;
      case 89 => assert DECTABLE_5[9] == 24;
      case 90 => assert DECTABLE_5[10] == 25;
      case 91 => assert DECTABLE_5[11] == SKIP;
      case 92 => assert DECTABLE_5[12] == SKIP;
      case 93 => assert DECTABLE_5[13] == SKIP;
      case 94 => assert DECTABLE_5[14] == SKIP;
      case 95 => assert DECTABLE_5[15] == SKIP;
    }
  }

  lemma Reads6(n: nat)
    requires 96 <= n < 112
    ensures DECTABLE[n] as int == ValueOf(n)
  {
    assert DECTABLE[n] == DECTABLE_6[n - 96];
    match n {
      case 96 => assert DECTABLE_6[0] == SKIP;
      case 97 => assert DECTABLE_6[1] == 26;
      case 98 => assert DECTABLE_6[2] == 27;
      case 99 => assert DECTABLE_6[3] == 28;
      case 100 => assert DECTABLE_6[4] == 29;
      case 101 => assert DECTABLE_6[5] == 30;
      case 102 => assert DECTABLE_6[6] == 31;
      case 103 => assert DECTABLE_6[7] == 32;
      case 104 => assert DECTABLE_6[8] == 33;
      case 105 => assert DECTABLE_6[9] == 34;
      case 106 => assert DECTABLE_6[10] == 35;
      case 107 => assert DECTABLE_6[11] == 36;
      case 108 => assert DECTABLE_6[12] == 37;
      case 109 => assert DECTABLE_6[13] == 38;
      case 110 => assert DECTABLE_6[14] == 39;
      case 111 => assert DECTABLE_6[15] == 40;
    }
  }

  lemma Reads7(n: nat)
    requires 112 <= n < 128
    ensures DECTABLE[n] as int == ValueOf(n)
  {
    assert DECTABLE[n] == DECTABLE_7[n - 112];
    match n {
      case 112 => assert DECTABLE_7[0] == 41;
      case 113 => assert DECTABLE_7[1] == 42;
      case 114 => assert DECTABLE_7[2] == 43;
      case 115 => assert DECTABLE_7[3] == 44;
      case 116 => assert DECTABLE_7[4] == 45;
      case 117 => assert DECTABLE_7[5] == 46;
      case 118 => assert DECTABLE_7[6] == 47;
      case 119 => assert DECTABLE_7[7] == 48;
      case 120 => assert DECTABLE_7[8] == 49;
      case 121 => assert DECTABLE_7[9] == 50;
      case 122 => assert DECTABLE_7[10] == 51;
      case 123 => assert DECTABLE_7[11] == SKIP;
      case 124 => assert DECTABLE_7[12] == SKIP;
      case 125 => assert DECTABLE_7[13] == SKIP;
      case 126 => assert DECTABLE_7[14] == SKIP;
      case 127 => assert DECTABLE_7[15] == SKIP;
    }
  }

  lemma Writes(i: nat)
    requires i < 64
    ensures ENCTABLE[i] as int == CodeOf(i)
  {
    hide CodeOf;
    match i / 8 {
      case 0 => Writes0(i);
      case 1 => Writes1(i);
      case 2 => Writes2(i);
      case 3 => Writes3(i);
      case 4 => Writes4(i);
      case 5 => Writes5(i);
      case 6 => Writes6(i);
      case 7 => Writes7(i);
    }
  }

  lemma Reads(n: nat)
    requires n < 128
    ensures DECTABLE[n] as int == ValueOf(n)
  {
    hide ValueOf;
    match n / 16 {
      case 0 => Reads0(n);
      case 1 => Reads1(n);
      case 2 => Reads2(n);
      case 3 => Reads3(n);
      case 4 => Reads4(n);
      case 5 => Reads5(n);
      case 6 => Reads6(n);
      case 7 => Reads7(n);
    }
  }

  // ----- the two look-ups -----

  function EncChar(v: byte): char
    requires v < 64
  {
    ENCTABLE[v as int]
  }

  function DecValue(c: char): byte
    requires c as int < 128
  {
    DECTABLE[c as int]
  }

  /** The encoder writes the values in the order A-Z, a-z, 0-9, and then '+' and '_'. */
  lemma EncoderAlphabet(v: byte)
    requires v < 64
    ensures v < 26 ==> EncChar(v) as int == 'A' as int + v as int
    ensures 26 <= v < 52 ==> EncChar(v) as int == 'a' as int + (v as int - 26)
    ensures 52 <= v < 62 ==> EncChar(v) as int == '0' as int + (v as int - 52)
    ensures v == 62 ==> EncChar(v) == '+'
    ensures v == 63 ==> EncChar(v) == '_'
    ensures EncChar(v) as int == CodeOf(v as int)
  {
    Writes(v as int);
  }

  predicate InAlphabet(c: char) {
    'A' <= c <= 'Z' || 'a' <= c <= 'z' || '0' <= c <= '9' || c == '+' || c == '/'
  }

  /** The decoder reads A-Z, a-z, 0-9, '+' and '/' as their values, and skips every other character. */
  lemma DecoderAlphabet(c: char)
    requires c as int < 128
    ensures 'A' <= c <= 'Z' ==> DecValue(c) as int == c as int - 'A' as int
    ensures 'a' <= c <= 'z' ==> DecValue(c) as int == c as int - 'a' as int + 26
    ensures '0' <= c <= '9' ==> DecValue(c) as int == c as int - '0' as int + 52
    ensures c == '+' ==> DecValue(c) as int == 62
    ensures c == '/' ==> DecValue(c) as int == 63
    ensures DecValue(c) == SKIP <==> !InAlphabet(c)
    ensures DecValue(c) as int == ValueOf(c as int)
  {
    Reads(c as int);
    if DecValue(c) as int == 255 {
      SameByte(DecValue(c), SKIP);
    }
  }

  lemma SameByte(a: byte, b: byte)
    requires a as int == b as int
    ensures a == b
  {
    assert a == (a as int) as byte && b == (b as int) as byte;
  }

  lemma ValueOfCode(v: nat)
    requires v < 64
    ensures CodeOf(v) < 128
    ensures ValueOf(CodeOf(v)) == if v == 63 then 255 else v
  {
  }

  /** The decoder undoes the encoder's table on every value but 63, whose character it skips. */
  lemma DecodeChar(v: byte)
    requires v < 64
    ensures EncChar(v) as int < 128
    ensures DecValue(EncChar(v)) == if v == 63 then SKIP else v
  {
    hide EncChar, DecValue, CodeOf, ValueOf, InAlphabet;
    EncoderAlphabet(v);
    ValueOfCode(v as int);
    DecoderAlphabet(EncChar(v));
    SameByte(DecValue(EncChar(v)), if v == 63 then SKIP else v);
  }

  lemma PadIsSkipped()
    ensures DecValue(PAD) == SKIP && DecValue(ENCODED_63) == SKIP && EncChar(63) == ENCODED_63
    ensures DecValue('/') == 63
  {
    assert DECTABLE[61] == SKIP && DECTABLE[95] == SKIP && DECTABLE[47] == 63;
  }

  predicate SextetOrSkip(x: byte) {
    x == SKIP || x < 64
  }

  lemma SmallByte(x: byte)
    requires x as int < 64
    ensures x < 64
  {
  }

  lemma DecodedRange(c: char)
    requires c as int < 128
    ensures SextetOrSkip(DecValue(c))
  {
    hide DecValue;
    DecoderAlphabet(c);
    if InAlphabet(c) {
      SmallByte(DecValue(c));
    }
  }
}
