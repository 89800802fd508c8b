/** Byte strings and the fixed-width integers stored in them. */
module Bytes {
  import opened MachineInts
  import opened Wrappers

  type Byte = b: int | 0 <= b < 256

  function Pow256(n: nat): (p: nat)
    ensures p > 0
  {
    if n == 0 then 1 else 256 * Pow256(n - 1)
  }

  lemma Widths()
    ensures Pow256(2) == 0x1_0000
    ensures Pow256(3) == 0x100_0000
    ensures Pow256(4) == U32_LIMIT
    ensures Pow256(8) == U64_LIMIT
  {
    assert Pow256(2) == 0x1_0000;
    assert Pow256(4) == U32_LIMIT;
    assert Pow256(6) == 0x1_0000_0000_0000;
  }

  /** The unsigned integer a big-endian byte string stands for. */
  function FromBe(s: seq<Byte>): (v: nat) {
    if s == [] then 0 else 256 * FromBe(s[..|s| - 1]) + s[|s| - 1]
  }

  /** The `n` low bytes of `v`, most significant first; higher bytes are dropped, as a cast does. */
  function ToBe(v: nat, n: nat): (s: seq<Byte>)
    ensures |s| == n
  {
    if n == 0 then [] else ToBe(v / 256, n - 1) + [v % 256]
  }

  function FromLe(s: seq<Byte>): (v: nat) {
    if s == [] then 0 else s[0] + 256 * FromLe(s[1..])
  }

  function ToLe(v: nat, n: nat): (s: seq<Byte>)
    ensures |s| == n
  {
    if n == 0 then [] else [v % 256] + ToLe(v / 256, n - 1)
  }

  lemma {:induction false} BeRoundTrip(v: nat, n: nat)
    requires v < Pow256(n)
    ensures FromBe(ToBe(v, n)) == v
  {
    if n > 0 {
      BeRoundTrip(v / 256, n - 1);
      assert ToBe(v, n)[..n - 1] == ToBe(v / 256, n - 1);
    }
  }

  lemma {:induction false} BeUnique(s: seq<Byte>)
    ensures FromBe(s) < Pow256(|s|)
    ensures ToBe(FromBe(s), |s|) == s
  {
    if s != [] {
      BeUnique(s[..|s| - 1]);
      assert s == s[..|s| - 1] + [s[|s| - 1]];
    }
  }

  lemma {:induction false} LeRoundTrip(v: nat, n: nat)
    requires v < Pow256(n)
    ensures FromLe(ToLe(v, n)) == v
  {
    if n > 0 {
      LeRoundTrip(v / 256, n - 1);
      assert ToLe(v, n)[1..] == ToLe(v / 256, n - 1);
    }
  }

  lemma {:induction false} LeBound(s: seq<Byte>)
    ensures FromLe(s) < Pow256(|s|)
  {
    if s != [] {
      LeBound(s[1..]);
    }
  }

  /** Reading `n` bytes at an offset: `None` when the range leaves the slice. */
  function ReadBe(bytes: seq<Byte>, offset: nat, n: nat): Option<nat> {
    if offset + n <= |bytes| then Some(FromBe(bytes[offset..offset + n])) else None
  }
}
