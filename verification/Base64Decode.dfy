/**
  The two decoders. Each runs four scans in turn, one for each sextet of a group; the scans for the
  third and fourth give up at a pad character. Both compute the flat rule of Base64Spec.
 */
module Base64Decode {
  import opened Bits
  import opened Base64Tables
  import opened Base64Spec
  import opened Base64Bits
  import opened Base64Encode

  // ----- reading -----

  /** The character at i of a string that ends with a NUL of its own. */
  function At(s: string, i: nat): char
    requires i <= |s|
  {
    if i < |s| then s[i] else 0 as char
  }

  function From(s: string, i: nat): string {
    if i <= |s| then s[i..] else []
  }

  lemma NulIsSkipped()
    ensures DecValue(0 as char) == SKIP && 0 as char != PAD
  {
    assert DECTABLE[0] == SKIP;
  }

  lemma AcceptNothing(s: string, i: nat, k: nat)
    requires IsAscii(s) && i >= |s|
    ensures IsAscii(From(s, i)) && Accepted(From(s, i), k) == []
  {
  }

  /** One character of the flat rule. */
  lemma AcceptStep(s: string, i: nat, k: nat)
    requires IsAscii(s) && i < |s|
    ensures IsAscii(From(s, i)) && IsAscii(From(s, i + 1))
    ensures IsAsciiChar(s[i]) && SextetOrSkip(DecValue(s[i]))
    ensures Accepted(From(s, i), k)
         == if s[i] == PAD && k % 4 >= 2 then []
            else if DecValue(s[i]) == SKIP then Accepted(From(s, i + 1), k)
            else [DecValue(s[i])] + Accepted(From(s, i + 1), k + 1)
  {
    hide DecValue, SextetOrSkip;
    assert s[i..][1..] == s[i + 1..];
    DecodedRange(s[i]);
  }

  // ----- what each sextet adds to the output -----

  function Octet1(c1: byte, c2: byte): byte {
    (c1 << 2) | (((c2 & 0x30) >> 4) & 0xFF)
  }

  function Octet2(c2: byte, c3: byte): byte {
    ((c2 & 0xF) << 4) | (((c3 & 0x3C) >> 2) & 0xFF)
  }

  function Octet3(c3: byte, c4: byte): byte {
    (((c3 & 0x03) << 6) | c4) & 0xFF
  }

  lemma WholeGroups(n: nat)
    requires n % 4 == 0
    ensures 6 * n % 8 == 0
  {
    var q := n / 4;
    assert 6 * n == 8 * (3 * q);
  }

  lemma OctetsConcat(vs: seq<byte>, t: seq<byte>)
    requires |vs| % 4 == 0
    ensures Octets(vs + t) == Octets(vs) + Octets(t)
  {
    hide ToBytes, SextetsBits;
    SextetsBitsConcat(vs, t);
    WholeGroups(|vs|);
    ToBytesConcat(SextetsBits(vs), SextetsBits(t));
  }

  lemma OctetsOf(t: seq<byte>, b: seq<byte>, tail: seq<bool>)
    requires |tail| < 8 && SextetsBits(t) == BytesBits(b) + tail
    ensures Octets(t) == b
  {
    ToBytesBytesBits(b, tail);
  }

  lemma OctetsNothing()
    ensures Octets([]) == []
  {
  }

  /** One sextet of a group does not make a byte. */
  lemma OctetsOne(vs: seq<byte>, c1: byte)
    requires |vs| % 4 == 0
    ensures Octets(vs + [c1]) == Octets(vs)
  {
    OctetsConcat(vs, [c1]);
    assert Octets([c1]) == [];
  }

  lemma OctetsTwo(vs: seq<byte>, c1: byte, c2: byte)
    requires |vs| % 4 == 0
    ensures Octets(vs + [c1] + [c2]) == Octets(vs) + [Octet1(c1, c2)]
  {
    hide SextetBits, ByteBits, SextetsBits, BytesBits, Octets;
    FirstOctet(c1, c2);
    SextetsBits4(c1, c2, 0, 0);
    BytesBits3(Octet1(c1, c2), 0, 0);
    OctetsOf([c1, c2], [Octet1(c1, c2)], SextetBits(c2)[2..]);
    OctetsConcat(vs, [c1, c2]);
    assert vs + [c1] + [c2] == vs + [c1, c2];
  }

  lemma OctetsThree(vs: seq<byte>, c1: byte, c2: byte, c3: byte)
    requires |vs| % 4 == 0
    ensures Octets(vs + [c1] + [c2] + [c3]) == Octets(vs) + [Octet1(c1, c2)] + [Octet2(c2, c3)]
  {
    hide SextetBits, ByteBits, SextetsBits, BytesBits, Octets;
    FirstOctet(c1, c2);
    SecondOctet(c2, c3);
    SextetsBits4(c1, c2, c3, 0);
    BytesBits3(Octet1(c1, c2), Octet2(c2, c3), 0);
    OctetsOf([c1, c2, c3], [Octet1(c1, c2), Octet2(c2, c3)], SextetBits(c3)[4..]);
    OctetsConcat(vs, [c1, c2, c3]);
    assert vs + [c1] + [c2] + [c3] == vs + [c1, c2, c3];
  }

  lemma OctetBits(c1: byte, c2: byte, c3: byte, c4: byte)
    requires c4 < 64
    ensures ByteBits(Octet1(c1, c2)) + ByteBits(Octet2(c2, c3)) + ByteBits(Octet3(c3, c4))
         == SextetBits(c1) + SextetBits(c2) + SextetBits(c3) + SextetBits(c4)
  {
    hide SextetBits, ByteBits;
    FourSextets(c1, c2, c3, c4);
  }

  lemma OctetsFour(vs: seq<byte>, c1: byte, c2: byte, c3: byte, c4: byte)
    requires |vs| % 4 == 0 && c4 < 64
    ensures Octets(vs + [c1] + [c2] + [c3] + [c4])
         == Octets(vs) + [Octet1(c1, c2)] + [Octet2(c2, c3)] + [Octet3(c3, c4)]
  {
    hide SextetBits, ByteBits, SextetsBits, BytesBits, Octets, Octet1, Octet2, Octet3;
    OctetBits(c1, c2, c3, c4);
    SextetsBits4(c1, c2, c3, c4);
    BytesBits3(Octet1(c1, c2), Octet2(c2, c3), Octet3(c3, c4));
    OctetsOf([c1, c2, c3, c4], [Octet1(c1, c2), Octet2(c2, c3), Octet3(c3, c4)], []);
    OctetsConcat(vs, [c1, c2, c3, c4]);
    assert vs + [c1] + [c2] + [c3] + [c4] == vs + [c1, c2, c3, c4];
  }

  // ----- how far a decoder has come -----

  /** The sextets in vs are the accepted ones of what has been read, up to i. */
  ghost predicate Read(s: string, vs: seq<byte>, i: nat)
    requires IsAscii(s)
  {
    IsAscii(From(s, i)) && Accepted(s, 0) == vs + Accepted(From(s, i), |vs|)
  }

  lemma ReadNothing(s: string)
    requires IsAscii(s)
    ensures Read(s, [], 0)
  {
    assert From(s, 0) == s;
  }

  lemma ReadOne(s: string, vs: seq<byte>, i: nat, c: byte, j: nat)
    requires IsAscii(s) && Read(s, vs, i) && IsAscii(From(s, j))
    requires Accepted(From(s, i), |vs|) == [c] + Accepted(From(s, j), |vs| + 1)
    ensures Read(s, vs + [c], j)
  {
    hide Accepted, IsAscii, From;
    var rest := Accepted(From(s, j), |vs| + 1);
    assert vs + ([c] + rest) == vs + [c] + rest;
  }

  lemma ReadAll(s: string, vs: seq<byte>, i: nat)
    requires IsAscii(s) && Read(s, vs, i)
    requires Accepted(From(s, i), |vs|) == []
    ensures Decode(s) == Octets(vs)
  {
    hide Octets, Accepted;
    assert vs + [] == vs;
  }

  lemma ReadToEnd(s: string, vs: seq<byte>, i: nat)
    requires IsAscii(s) && Read(s, vs, i) && i >= |s|
    ensures Decode(s) == Octets(vs)
  {
    hide Octets;
    AcceptNothing(s, i, |vs|);
    ReadAll(s, vs, i);
  }

  // ----- the scans -----

  /** What a scan that began at start knows when it has read up to i and holds c. */
  ghost predicate Scanned(s: string, start: nat, k: nat, c: byte, i: nat)
    requires IsAscii(s)
  {
    && IsAscii(From(s, start)) && IsAscii(From(s, i))
    && (c == SKIP ==> Accepted(From(s, start), k) == Accepted(From(s, i), k))
    && (c != SKIP ==> c < 64 && i <= |s| && Accepted(From(s, start), k) == [c] + Accepted(From(s, i), k + 1))
  }

  /** The first read of a scan, which may be of the NUL at the end. */
  lemma FirstRead(s: string, start: nat, k: nat)
    requires IsAscii(s) && start <= |s|
    ensures IsAsciiChar(At(s, start)) && IsAscii(From(s, start))
    ensures At(s, start) == PAD && k % 4 >= 2 ==> Accepted(From(s, start), k) == []
    ensures !(At(s, start) == PAD && k % 4 >= 2) ==> Scanned(s, start, k, DecValue(At(s, start)), start + 1)
  {
    hide DecValue, Accepted;
    NulIsSkipped();
    if start < |s| {
      AcceptStep(s, start, k);
    } else {
      AcceptNothing(s, start, k);
      AcceptNothing(s, start + 1, k);
    }
  }

  /** The scan for the first or second sextet of a group. */
  method Scan(s: string, start: nat, ghost vs: seq<byte>) returns (c: byte, i: nat)
    requires IsAscii(s) && start <= |s| && Read(s, vs, start) && |vs| % 4 < 2
    ensures start < i
    ensures c == SKIP ==> Decode(s) == Octets(vs)
    ensures c != SKIP ==> c < 64 && i <= |s| && Read(s, vs + [c], i)
  {
    hide DecValue, Octets, Decode, Accepted, Read, From;
    ghost var k := |vs|;
    i := start;
    FirstRead(s, start, k);
    c := DecValue(At(s, i));
    i := i + 1;
    while i < |s| && c == SKIP
      invariant start < i <= |s| + 1
      invariant Scanned(s, start, k, c, i)
    {
      AcceptStep(s, i, k);
      c := DecValue(At(s, i));
      i := i + 1;
    }
    if c == SKIP {
      AcceptNothing(s, i, k);
      ReadAll(s, vs, start);
    } else {
      ReadOne(s, vs, start, c, i);
    }
  }

  /** The scan for the third or fourth sextet of a group, which a pad character ends. */
  method ScanOrPad(s: string, start: nat, ghost vs: seq<byte>) returns (c: byte, i: nat, padded: bool)
    requires IsAscii(s) && start <= |s| && Read(s, vs, start) && |vs| % 4 >= 2
    ensures start < i
    ensures padded || c == SKIP ==> Decode(s) == Octets(vs)
    ensures !padded && c != SKIP ==> c < 64 && i <= |s| && Read(s, vs + [c], i)
  {
    hide DecValue, Octets, Decode, Accepted, Read, From;
    ghost var k := |vs|;
    i := start;
    c := SKIP;
    FirstRead(s, start, k);
    var ch := At(s, i);
    i := i + 1;
    if ch == PAD {
      ReadAll(s, vs, start);
      return c, i, true;
    }
    c := DecValue(ch);
    while i < |s| && c == SKIP
      invariant start < i <= |s| + 1
      invariant Scanned(s, start, k, c, i)
    {
      AcceptStep(s, i, k);
      ch := At(s, i);
      i := i + 1;
      if ch == PAD {
        ReadAll(s, vs, start);
        return c, i, true;
      }
      c := DecValue(ch);
    }
    padded := false;
    if c == SKIP {
      AcceptNothing(s, i, k);
      ReadAll(s, vs, start);
    } else {
      ReadOne(s, vs, start, c, i);
    }
  }

  /** Where in a group of four the next sextets stand. */
  lemma Phases(n: nat)
    requires n % 4 == 0
    ensures (n + 1) % 4 == 1 && (n + 2) % 4 == 2 && (n + 3) % 4 == 3 && (n + 4) % 4 == 0
  {
  }

  // ----- into a growing container -----

  class Container {
    var items: seq<byte>

    method Clear()
      modifies this
      ensures items == []
    {
      items := [];
    }

    method PushBack(x: byte)
      modifies this
      ensures items == old(items) + [x]
    {
      items := items + [x];
    }
  }

  method DecodeTo(s: string, dest: Container)
    requires IsAscii(s)
    modifies dest
    ensures dest.items == Decode(s)
  {
    hide *;
    dest.Clear();
    var i := 0;
    ghost var vs: seq<byte> := [];
    ReadNothing(s);
    OctetsNothing();
    while i < |s|
      invariant 0 <= i <= |s| && |vs| % 4 == 0
      invariant Read(s, vs, i)
      invariant dest.items == Octets(vs)
    {
      var c1, c2, c3, c4, padded;
      ghost var group := vs;
      Phases(|group|);
      c1, i := Scan(s, i, vs);
      if c1 == SKIP {
        return;
      }
      vs := vs + [c1];
      OctetsOne(group, c1);
      c2, i := Scan(s, i, vs);
      if c2 == SKIP {
        return;
      }
      vs := vs + [c2];
      OctetsTwo(group, c1, c2);
      dest.PushBack(Octet1(c1, c2));
      c3, i, padded := ScanOrPad(s, i, vs);
      if padded || c3 == SKIP {
        return;
      }
      vs := vs + [c3];
      OctetsThree(group, c1, c2, c3);
      dest.PushBack(Octet2(c2, c3));
      c4, i, padded := ScanOrPad(s, i, vs);
      if padded || c4 == SKIP {
        return;
      }
      vs := vs + [c4];
      OctetsFour(group, c1, c2, c3, c4);
      dest.PushBack(Octet3(c3, c4));
    }
    ReadToEnd(s, vs, i);
  }

  // ----- into an array of fixed size -----

  /** Three quarters of the input length, rounded up. */
  function Reserved(size: nat): nat {
    (3 * size + 3) / 4
  }

  lemma WriteFits(size: nat, i: nat, destLen: nat)
    requires i <= size && 4 * (destLen + 1) <= 3 * i
    ensures destLen < Reserved(size)
  {
  }

  /** The program's dest[dest_len++] = x. */
  method Append(dest: array<byte>, destLen: nat, x: byte) returns (n: nat)
    requires destLen < dest.Length
    modifies dest
    ensures n == destLen + 1 && dest[..n] == old(dest[..destLen]) + [x]
  {
    dest[destLen] := x;
    n := destLen + 1;
  }

  /**
    Every write is inside the array: while four sextets have been read for each three bytes
    written, 4 * destLen never exceeds 3 * i.
   */
  method DecodeToArray(s: string) returns (dest: array<byte>, destLen: nat)
    requires IsAscii(s)
    ensures fresh(dest) && dest.Length == Reserved(|s|) && destLen <= dest.Length
    ensures dest[..destLen] == Decode(s)
  {
    hide *;
    var i := 0;
    dest := new byte[Reserved(|s|)];
    destLen := 0;
    ghost var vs: seq<byte> := [];
    ReadNothing(s);
    OctetsNothing();
    while i < |s|
      invariant 0 <= i <= |s| && |vs| % 4 == 0
      invariant Read(s, vs, i)
      invariant 4 * destLen <= 3 * i && destLen <= dest.Length == Reserved(|s|)
      invariant dest[..destLen] == Octets(vs)
    {
      var c1, c2, c3, c4, padded;
      ghost var group := vs;
      Phases(|group|);
      c1, i := Scan(s, i, vs);
      if c1 == SKIP {
        return;
      }
      vs := vs + [c1];
      OctetsOne(group, c1);
      c2, i := Scan(s, i, vs);
      if c2 == SKIP {
        return;
      }
      vs := vs + [c2];
      OctetsTwo(group, c1, c2);
      WriteFits(|s|, i, destLen);
      destLen := Append(dest, destLen, Octet1(c1, c2));
      c3, i, padded := ScanOrPad(s, i, vs);
      if padded || c3 == SKIP {
        return;
      }
      vs := vs + [c3];
      OctetsThree(group, c1, c2, c3);
      WriteFits(|s|, i, destLen);
      destLen := Append(dest, destLen, Octet2(c2, c3));
      c4, i, padded := ScanOrPad(s, i, vs);
      if padded || c4 == SKIP {
        return;
      }
      vs := vs + [c4];
      OctetsFour(group, c1, c2, c3, c4);
      WriteFits(|s|, i, destLen);
      destLen := Append(dest, destLen, Octet3(c3, c4));
    }
    ReadToEnd(s, vs, i);
  }
}
