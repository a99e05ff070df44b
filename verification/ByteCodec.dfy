/**
 Fixed-width numbers in bytes, as the stream serializer writes and reads them.
 */
module ByteCodec {
  type byte = n: nat | n < 256

  datatype Parsed<+T> = Bad | Good(value: T, rest: seq<byte>)

  function Pow256(k: nat): (p: nat)
    ensures p > 0
  {
    if k == 0 then 1 else 256 * Pow256(k - 1)
  }

  /** The k lowest bytes of n, lowest first. */
  function LittleEndian(n: nat, k: nat): (b: seq<byte>)
    ensures |b| == k
    decreases k
  {
    if k == 0 then [] else [n % 256] + LittleEndian(n / 256, k - 1)
  }

  function FromLittleEndian(b: seq<byte>): (n: nat) {
    if b == [] then 0 else b[0] + 256 * FromLittleEndian(b[1..])
  }

  /** The k lowest bytes of n, highest first. */
  function BigEndian(n: nat, k: nat): (b: seq<byte>)
    ensures |b| == k
    decreases k
  {
    if k == 0 then [] else BigEndian(n / 256, k - 1) + [n % 256]
  }

  function FromBigEndian(b: seq<byte>): (n: nat) {
    if b == [] then 0 else FromBigEndian(b[..|b| - 1]) * 256 + b[|b| - 1]
  }

  lemma {:induction false} LittleEndianRoundTrip(n: nat, k: nat)
    requires n < Pow256(k)
    ensures FromLittleEndian(LittleEndian(n, k)) == n
    decreases k
  {
    if k > 0 {
      LittleEndianRoundTrip(n / 256, k - 1);
      assert LittleEndian(n, k)[1..] == LittleEndian(n / 256, k - 1);
    }
  }

  lemma {:induction false} BigEndianRoundTrip(n: nat, k: nat)
    requires n < Pow256(k)
    ensures FromBigEndian(BigEndian(n, k)) == n
    decreases k
  {
    if k > 0 {
      BigEndianRoundTrip(n / 256, k - 1);
      assert BigEndian(n, k)[..k - 1] == BigEndian(n / 256, k - 1);
    }
  }

  /** The i-th digit of n in base 256, from the lowest. */
  function Digit(n: nat, i: nat): (d: byte)
    decreases i
  {
    if i == 0 then n % 256 else Digit(n / 256, i - 1)
  }

  lemma {:induction false} LittleEndianAt(n: nat, k: nat, i: nat)
    requires i < k
    ensures LittleEndian(n, k)[i] == Digit(n, i)
    decreases k
  {
    if i > 0 {
      LittleEndianAt(n / 256, k - 1, i - 1);
    }
  }

  lemma {:induction false} BigEndianAt(n: nat, k: nat, i: nat)
    requires i < k
    ensures BigEndian(n, k)[k - 1 - i] == Digit(n, i)
    decreases k
  {
    if i > 0 {
      BigEndianAt(n / 256, k - 1, i - 1);
    }
  }

  lemma {:induction false} FromLittleEndianBound(b: seq<byte>)
    ensures FromLittleEndian(b) < Pow256(|b|)
  {
    if b != [] {
      FromLittleEndianBound(b[1..]);
    }
  }

  lemma {:induction false} FromBigEndianBound(b: seq<byte>)
    ensures FromBigEndian(b) < Pow256(|b|)
  {
    if b != [] {
      FromBigEndianBound(b[..|b| - 1]);
    }
  }

  lemma PowersOf256()
    ensures Pow256(4) == 0x1_0000_0000
    ensures Pow256(8) == 0x1_0000_0000_0000_0000
    ensures Pow256(32) == 0x1_0000000000000000_0000000000000000_0000000000000000_0000000000000000
  {
    assert Pow256(4) == 0x1_0000_0000;
    assert Pow256(8) == 0x1_0000_0000_0000_0000;
    assert Pow256(12) == 0x1_00000000_0000000000000000;
    assert Pow256(16) == 0x1_0000000000000000_0000000000000000;
    assert Pow256(20) == 0x1_00000000_0000000000000000_0000000000000000;
    assert Pow256(24) == 0x1_0000000000000000_0000000000000000_0000000000000000;
    assert Pow256(28) == 0x1_00000000_0000000000000000_0000000000000000_0000000000000000;
  }
}
