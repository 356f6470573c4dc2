/**
 Little-endian integers (src/encoding/binary_le.h) as byte sequences, with the
 round trip the readers and writers rely on.
 */
module Wire {
  import opened Types

  function Pow256(n: nat): (r: nat)
    ensures r > 0
  {
    if n == 0 then 1 else 256 * Pow256(n - 1)
  }

  /** The n low-order bytes of v, least significant first. */
  function LE(v: nat, n: nat): (r: seq<byte>)
    ensures |r| == n
  {
    if n == 0 then [] else [v % 256] + LE(v / 256, n - 1)
  }

  function FromLE(s: seq<byte>): (v: nat)
    ensures v < Pow256(|s|)
  {
    if s == [] then 0 else s[0] + 256 * FromLE(s[1..])
  }

  /** Reading back n little-endian bytes gives the number that was put. */
  lemma {:induction false} LEInverse(v: nat, n: nat)
    requires v < Pow256(n)
    ensures FromLE(LE(v, n)) == v
  {
    if n > 0 {
      LEInverse(v / 256, n - 1);
      assert LE(v, n)[1..] == LE(v / 256, n - 1);
    }
  }

  /** Putting back the number read from n bytes gives those bytes: no byte string is left out. */
  lemma {:induction false} FromLEInverse(s: seq<byte>)
    ensures LE(FromLE(s), |s|) == s
  {
    if s != [] {
      FromLEInverse(s[1..]);
      assert FromLE(s) % 256 == s[0] && FromLE(s) / 256 == FromLE(s[1..]);
    }
  }

  lemma Pow256Values()
    ensures Pow256(1) == TWO8 && Pow256(2) == TWO16 && Pow256(4) == TWO32 && Pow256(8) == TWO64
  {
    assert Pow256(3) == 256 * Pow256(2);
    assert Pow256(5) == 256 * Pow256(4);
    assert Pow256(6) == 256 * Pow256(5);
    assert Pow256(7) == 256 * Pow256(6);
  }

  /** Two's complement of a signed value on a modulus of 2^width. */
  function ToUnsigned(v: int, modulus: int): (r: int)
    requires modulus > 0 && -modulus <= v < modulus
    ensures 0 <= r < modulus
  {
    if v < 0 then v + modulus else v
  }

  function ToSigned(v: nat, modulus: int): (r: int)
    requires 0 <= v < modulus
  {
    if 2 * v >= modulus then v - modulus else v
  }

  /** One byte more: what a put function writes by shifting the value down a byte at a time. */
  lemma LEStep(v: nat, n: nat)
    ensures LE(v, n + 1) == [v % 256] + LE(v / 256, n)
  {
  }

  lemma LE2(v: u16)
    ensures LE(v, 2) == [v % 256, v / 256]
  {
    LEStep(v, 1);
    LEStep(v / 256, 0);
  }

  lemma LE4(v: nat)
    ensures LE(v, 4) == [v % 256, Shift(v, 1) % 256, Shift(v, 2) % 256, Shift(v, 3) % 256]
  {
    LEStep(v, 3);
    LEStep(Shift(v, 1), 2);
    LEStep(Shift(v, 2), 1);
    LEStep(Shift(v, 3), 0);
  }

  lemma LE8(v: nat)
    ensures LE(v, 8) == LE(v, 4) + LE(Shift(v, 4), 4)
  {
    LEStep(v, 7);
    LEStep(Shift(v, 1), 6);
    LEStep(Shift(v, 2), 5);
    LEStep(Shift(v, 3), 4);
    LE4(v);
  }

  /** v shifted right by n bytes. */
  function Shift(v: nat, n: nat): (r: nat)
  {
    if n == 0 then v else Shift(v, n - 1) / 256
  }
}
