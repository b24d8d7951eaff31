/** Bytes and their little-endian reading, as `to_le_bytes` and
    `from_le_bytes` define it for every integer width. */
module Bytes {
  import opened Bits

  type byte = b: int | 0 <= b < 256

  function Pow256(k: nat): (p: nat)
    ensures p > 0
  {
    if k == 0 then 1 else 256 * Pow256(k - 1)
  }

  function FromLe(s: seq<byte>): nat {
    if s == [] then 0 else s[0] + 256 * FromLe(s[1..])
  }

  function ToLe(n: nat, width: nat): (s: seq<byte>)
    ensures |s| == width
  {
    if width == 0 then [] else [(n % 256) as byte] + ToLe(n / 256, width - 1)
  }

  lemma FromLeCons(b: byte, s: seq<byte>)
    ensures FromLe([b] + s) == b + 256 * FromLe(s)
  {
    assert ([b] + s)[1..] == s;
  }

  lemma ToLeCons(b: byte, n: nat, width: nat)
    ensures ToLe(b + 256 * n, width + 1) == [b] + ToLe(n, width)
  {
    DivModUnique(b + 256 * n, 256, n, b);
  }

  /** Each byte of a number, wherever it stands. */
  lemma {:induction false} ToLeAt(n: nat, width: nat, i: nat)
    requires i < width
    ensures ToLe(n, width)[i] == n / Pow256(i) % 256
  {
    if i != 0 {
      ToLeAt(n / 256, width - 1, i - 1);
      DivDiv(n, 256, Pow256(i - 1));
    }
  }

  lemma {:induction false} FromLeBound(s: seq<byte>)
    ensures FromLe(s) < Pow256(|s|)
  {
    if s != [] {
      FromLeBound(s[1..]);
    }
  }

  lemma {:induction false} FromToLe(n: nat, width: nat)
    requires n < Pow256(width)
    ensures FromLe(ToLe(n, width)) == n
  {
    if width != 0 {
      FromToLe(n / 256, width - 1);
    }
  }

  lemma {:induction false} ToFromLe(s: seq<byte>)
    ensures ToLe(FromLe(s), |s|) == s
  {
    if s != [] {
      ToFromLe(s[1..]);
      FromLeCons(s[0], s[1..]);
      ToLeCons(s[0], FromLe(s[1..]), |s| - 1);
      hide FromLe, ToLe;
      assert s == [s[0]] + s[1..];
    }
  }

  lemma Regroup(p: nat, v: nat)
    ensures 256 * (p * v) == (256 * p) * v
  {}

  /** A run of bytes reads as its low part plus its high part, shifted. */
  lemma {:induction false} FromLeConcat(low: seq<byte>, high: seq<byte>)
    ensures FromLe(low + high) == FromLe(low) + Pow256(|low|) * FromLe(high)
  {
    if low == [] {
      assert low + high == high;
    } else {
      assert (low + high)[1..] == low[1..] + high;
      FromLeConcat(low[1..], high);
      FromLeCons(low[0], low[1..]);
      FromLeCons(low[0], low[1..] + high);
      assert low == [low[0]] + low[1..] && low + high == [low[0]] + (low[1..] + high);
      assert Pow256(|low|) == 256 * Pow256(|low| - 1);
      hide FromLe, Pow256;
      Regroup(Pow256(|low| - 1), FromLe(high));
    }
  }

  /** Zero bytes at the end do not count. */
  lemma {:induction false} FromLeZeros(s: seq<byte>)
    requires forall i :: 0 <= i < |s| ==> s[i] == 0
    ensures FromLe(s) == 0
  {
    if s != [] {
      FromLeZeros(s[1..]);
    }
  }
}
