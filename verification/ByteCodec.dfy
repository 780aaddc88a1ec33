/** Fixed-width integers as byte strings, in both byte orders. */
module ByteCodec {
  import opened Base

  function Pow256(k: nat): (r: nat)
    ensures r > 0
  {
    if k == 0 then 1 else 256 * Pow256(k - 1)
  }

  lemma Pow256Values()
    ensures Pow256(1) == 0x100 && Pow256(2) == 0x1_0000 && Pow256(4) == 0x1_0000_0000
    ensures Pow256(8) == U64_MODULUS
  {
    assert Pow256(2) == 0x1_0000;
    assert Pow256(4) == 256 * (256 * Pow256(2));
    assert Pow256(6) == 256 * (256 * Pow256(4));
    assert Pow256(8) == 256 * (256 * Pow256(6));
  }

  /** The low `k` bytes of `x`, most significant first. */
  function ToBE(x: nat, k: nat): (b: Bytes)
    ensures |b| == k
  {
    if k == 0 then [] else ToBE(x / 256, k - 1) + [x % 256]
  }

  function FromBE(b: Bytes): nat {
    if b == [] then 0 else FromBE(b[..|b| - 1]) * 256 + b[|b| - 1]
  }

  /** The most significant byte comes first, at either end. */
  lemma BigEndian(a: u8, b: u8)
    ensures ToBE(a * 256 + b, 2) == [a, b] && FromBE([a, b]) == a * 256 + b
  {
    assert ToBE(a, 1) == [a] by {
      assert ToBE(0, 0) == [];
    }
    assert [a, b][..1] == [a] && [a][..0] == [];
    assert FromBE([a]) == a by {
      assert FromBE([]) == 0;
    }
  }

  lemma {:induction false} FromToBE(x: nat, k: nat)
    requires x < Pow256(k)
    ensures FromBE(ToBE(x, k)) == x
  {
    if k > 0 {
      FromToBE(x / 256, k - 1);
      assert ToBE(x, k)[..k - 1] == ToBE(x / 256, k - 1);
    }
  }

  lemma {:induction false} ToFromBE(b: Bytes)
    ensures FromBE(b) < Pow256(|b|) && ToBE(FromBE(b), |b|) == b
  {
    if b != [] {
      ToFromBE(b[..|b| - 1]);
    }
  }

  /** The low `k` bytes of `x`, least significant first. */
  function ToLE(x: nat, k: nat): (b: Bytes)
    ensures |b| == k
  {
    if k == 0 then [] else [x % 256] + ToLE(x / 256, k - 1)
  }

  function FromLE(b: Bytes): nat {
    if b == [] then 0 else b[0] + 256 * FromLE(b[1..])
  }

  /** The least significant byte comes first, at either end. */
  lemma LittleEndian(a: u8, b: u8)
    ensures ToLE(a + 256 * b, 2) == [a, b] && FromLE([a, b]) == a + 256 * b
  {
    assert ToLE(b, 1) == [b] by {
      assert ToLE(0, 0) == [];
    }
    assert [a, b][1..] == [b] && [b][1..] == [];
    assert FromLE([b]) == b by {
      assert FromLE([]) == 0;
    }
  }

  lemma {:induction false} FromToLE(x: nat, k: nat)
    requires x < Pow256(k)
    ensures FromLE(ToLE(x, k)) == x
  {
    if k > 0 {
      FromToLE(x / 256, k - 1);
      assert ToLE(x, k)[1..] == ToLE(x / 256, k - 1);
    }
  }

  lemma {:induction false} FromLEBound(b: Bytes)
    ensures FromLE(b) < Pow256(|b|)
  {
    if b != [] {
      FromLEBound(b[1..]);
    }
  }
}
