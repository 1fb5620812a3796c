/**
  The hash in base64: where the hasher and the codec meet.
 */
module HashBase64 {
  import opened Bits
  import opened Fips180
  import opened Sha256Context
  import opened Sha256Runs
  import opened Base64Tables
  import opened Base64Spec
  import opened Base64Encode
  import opened Base64Theorems

  /**
    The text is 43 characters and a pad, and it encodes the one digest of s; decoding gives that
    digest back exactly when no '_' was written.
   */
  method HashToBase64(s: seq<byte>) returns (text: string)
    ensures |text| == 44 && text[43] == PAD && forall i :: 0 <= i < 43 ==> text[i] != PAD
    ensures IsAscii(text)
    ensures |s| < TOO_LONG ==>
              exists d :: IsDigest(BytesBits(d), BytesBits(s)) && text == Encode(d)
                          && (Decode(text) == d <==> ENCODED_63 !in text)
  {
    hide BytesBits, IsDigest, Encode, IsAscii, Decode;
    var digest := new byte[HASH_SIZE];
    HashBytes(s, digest);
    text := EncodeFromArray(digest[..HASH_SIZE]);
    EncodedShape(digest[..HASH_SIZE]);
    RoundTripIff(digest[..HASH_SIZE]);
  }

  /** Two messages have the same text exactly when they have the same hash value. */
  lemma SameTextSameHash(d: seq<byte>, e: seq<byte>, m: seq<bool>, n: seq<bool>)
    requires IsDigest(BytesBits(d), m) && IsDigest(BytesBits(e), n)
    ensures Encode(d) == Encode(e) <==> Hash(m) == Hash(n)
  {
    hide Encode, Hash, Words, BytesBits;
    if Encode(d) == Encode(e) {
      EncodeInjective(d, e);
    }
    if Hash(m) == Hash(n) {
      WordsInjective(BytesBits(d), BytesBits(e));
      BytesBitsInjective(d, e);
    }
  }
}
