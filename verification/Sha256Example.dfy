/**
  The digest of "abc", byte by byte: the only one the object can write.
 */
module Sha256Example {
  import opened Bits
  import opened Fips180
  import opened Fips180Example
  import opened Sha256Block
  import opened Sha256Runs

  const DIGEST_0: seq<byte> := [
    0xba, 0x78, 0x16, 0xbf, 0x8f, 0x01, 0xcf, 0xea, 0x41, 0x41, 0x40, 0xde, 0x5d, 0xae, 0x22, 0x23]
  const DIGEST_1: seq<byte> := [
    0xb0, 0x03, 0x61, 0xa3, 0x96, 0x17, 0x7a, 0x9c, 0xb4, 0x10, 0xff, 0x61, 0xf2, 0x00, 0x15, 0xad]
  const DIGEST_OF_ABC: seq<byte> := DIGEST_0 + DIGEST_1

  lemma DigestWord(i: nat)
    requires i < 8
    ensures BigEndian(DIGEST_OF_ABC[4 * i], DIGEST_OF_ABC[4 * i + 1],
                      DIGEST_OF_ABC[4 * i + 2], DIGEST_OF_ABC[4 * i + 3])
         == HASH_OF_ABC[i]
  {
    match i {
      case 0 =>
        assert BigEndian(0xba, 0x78, 0x16, 0xbf) == 0xba7816bf;
      case 1 =>
        assert BigEndian(0x8f, 0x01, 0xcf, 0xea) == 0x8f01cfea;
      case 2 =>
        assert BigEndian(0x41, 0x41, 0x40, 0xde) == 0x414140de;
      case 3 =>
        assert BigEndian(0x5d, 0xae, 0x22, 0x23) == 0x5dae2223;
      case 4 =>
        assert BigEndian(0xb0, 0x03, 0x61, 0xa3) == 0xb00361a3;
      case 5 =>
        assert BigEndian(0x96, 0x17, 0x7a, 0x9c) == 0x96177a9c;
      case 6 =>
        assert BigEndian(0xb4, 0x10, 0xff, 0x61) == 0xb410ff61;
      case 7 =>
        assert BigEndian(0xf2, 0x00, 0x15, 0xad) == 0xf20015ad;
    }
  }

  /** "abc" has one digest, ba7816bf 8f01cfea 414140de 5dae2223 b00361a3 96177a9c b410ff61 f20015ad. */
  lemma DigestOfAbc(d: seq<byte>)
    ensures IsDigest(BytesBits(d), BytesBits(ABC)) <==> d == DIGEST_OF_ABC
  {
    forall i | 0 <= i < 8
      ensures BigEndian(DIGEST_OF_ABC[4 * i], DIGEST_OF_ABC[4 * i + 1],
                      DIGEST_OF_ABC[4 * i + 2], DIGEST_OF_ABC[4 * i + 3])
           == HASH_OF_ABC[i]
    {
      DigestWord(i);
    }
    hide BytesBits, Words, Hash, BigEndian;
    HashOfAbc();
    DigestParses(DIGEST_OF_ABC, HASH_OF_ABC);
    assert IsDigest(BytesBits(DIGEST_OF_ABC), BytesBits(ABC));
    if IsDigest(BytesBits(d), BytesBits(ABC)) {
      DigestIsUnique(BytesBits(d), BytesBits(DIGEST_OF_ABC), BytesBits(ABC));
      BytesBitsInjective(d, DIGEST_OF_ABC);
    }
  }
}
