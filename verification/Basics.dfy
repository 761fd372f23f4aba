/** What several modules need: bytes, options, numbers in bytes and pages. */
module Basics {

  type byte = x: int | 0 <= x < 256

  datatype Option<T> = None | Some(value: T)

  // ---------- Big-endian numbers ----------

  function Pow256(n: nat): (p: nat)
    ensures p > 0
  {
    if n == 0 then 1 else 256 * Pow256(n - 1)
  }

  /** The n low bytes of x, most significant first. */
  function Be(x: nat, n: nat): (s: seq<byte>)
    ensures |s| == n
  {
    if n == 0 then [] else Be(x / 256, n - 1) + [x % 256]
  }

  function UnBe(s: seq<byte>): nat {
    if s == [] then 0 else 256 * UnBe(s[..|s| - 1]) + (s[|s| - 1] as int)
  }

  lemma {:induction false} BeRoundTrip(x: nat, n: nat)
    requires x < Pow256(n)
    ensures UnBe(Be(x, n)) == x
  {
    if n > 0 {
      BeRoundTrip(x / 256, n - 1);
      assert Be(x, n)[..n - 1] == Be(x / 256, n - 1);
    }
  }

  lemma Pow256Values()
    ensures Pow256(2) == 0x1_0000 && Pow256(4) == 0x1_0000_0000 && Pow256(8) == 0x1_0000_0000_0000_0000
  {
    assert Pow256(2) == 0x1_0000;
    assert Pow256(4) == 0x1_0000_0000;
    assert Pow256(6) == 0x1_0000_0000_0000;
  }

  /** A page of one byte. */
  function Filled(ch: byte): (z: seq<byte>)
    ensures |z| == 4096 && forall i :: 0 <= i < 4096 ==> z[i] == ch
  {
    seq(4096, i => ch)
  }
}
