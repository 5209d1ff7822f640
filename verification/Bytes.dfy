/** Big-endian integer fields of a given width in bytes. */
module Bytes {
  import opened Packets

  function Pow256(w: nat): (r: nat)
    ensures r > 0
  {
    if w == 0 then 1 else 256 * Pow256(w - 1)
  }

  /** The lowest `w` bytes of `n`, highest first: what byte casts of shifts leave. */
  function Be(n: nat, w: nat): (r: seq<byte>)
    ensures |r| == w
  {
    if w == 0 then [] else Be(n / 256, w - 1) + [n % 256]
  }

  function FromBe(b: seq<byte>): (n: nat)
    ensures n < Pow256(|b|)
  {
    if b == [] then 0 else FromBe(b[..|b| - 1]) * 256 + b[|b| - 1] as nat
  }

  lemma Carry(n: nat, high: nat, lost: nat, p: nat, f: nat)
    requires high == n / 256 && high == lost * p + f
    ensures n == lost * (256 * p) + (f * 256 + n % 256)
  {
  }

  /** A field keeps the remainder of `n`: what is lost is a multiple of the field's range. */
  lemma {:induction false} BeKeepsRemainder(n: nat, w: nat) returns (lost: nat)
    ensures n == lost * Pow256(w) + FromBe(Be(n, w))
  {
    if w == 0 {
      lost := n;
    } else {
      lost := BeKeepsRemainder(n / 256, w - 1);
      assert Be(n, w)[..w - 1] == Be(n / 256, w - 1);
      Carry(n, n / 256, lost, Pow256(w - 1), FromBe(Be(n / 256, w - 1)));
    }
  }

  lemma BeRoundTrip(n: nat, w: nat)
    requires n < Pow256(w)
    ensures FromBe(Be(n, w)) == n
  {
  }

  lemma ThreeBytes(n: nat)
    ensures Be(n, 3) == [n / 0x1_0000 % 256, n / 0x100 % 256, n % 256]
  {
    assert n / 0x100 / 256 == n / 0x1_0000;
    assert Be(n / 0x1_0000, 1) == [n / 0x1_0000 % 256];
    assert Be(n / 0x100, 2) == Be(n / 0x100 / 256, 1) + [n / 0x100 % 256];
  }

  lemma FromThree(b: seq<byte>)
    requires |b| == 3
    ensures FromBe(b) == b[0] as nat * 0x1_0000 + b[1] as nat * 0x100 + b[2] as nat
  {
    assert b[..2][..1] == [b[0]];
    assert FromBe([b[0]]) == b[0] as nat;
    assert FromBe(b[..2]) == b[0] as nat * 256 + b[1] as nat;
  }

  lemma Widths()
    ensures Pow256(1) == 0x100 && Pow256(2) == 0x1_0000 && Pow256(3) == 0x100_0000 && Pow256(4) == 0x1_0000_0000
  {
  }
}
