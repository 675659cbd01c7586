/** Machine integers as bytes. */
module Bytes {
  type byte = x: int | 0 <= x < 256

  datatype Order = Little | Big

  function Rev(s: seq<byte>): (r: seq<byte>)
    ensures |r| == |s| && forall i :: 0 <= i < |s| ==> r[i] == s[|s| - 1 - i]
  {
    seq(|s|, i requires 0 <= i < |s| => s[|s| - 1 - i])
  }

  lemma RevRev(s: seq<byte>)
    ensures Rev(Rev(s)) == s
  {
  }

  function Pow256(n: nat): (r: nat)
    ensures r > 0
  {
    if n == 0 then 1 else 256 * Pow256(n - 1)
  }

  function BigValue(s: seq<byte>): nat { if s == [] then 0 else 256 * BigValue(s[..|s| - 1]) + s[|s| - 1] }

  function BigBytes(v: nat, n: nat): (r: seq<byte>)
    ensures |r| == n
  {
    if n == 0 then [] else BigBytes(v / 256, n - 1) + [v % 256]
  }

  function Load(order: Order, s: seq<byte>): nat { BigValue(if order == Big then s else Rev(s)) }

  function Store(order: Order, v: nat, n: nat): (r: seq<byte>)
    ensures |r| == n
  {
    if order == Big then BigBytes(v, n) else Rev(BigBytes(v, n))
  }

  lemma {:induction false} BigStoreLoad(s: seq<byte>)
    ensures BigBytes(BigValue(s), |s|) == s && BigValue(s) < Pow256(|s|)
    decreases |s|
  {
    if s != [] {
      var init := s[..|s| - 1];
      BigStoreLoad(init);
      assert BigValue(s) / 256 == BigValue(init) && BigValue(s) % 256 == s[|s| - 1];
      assert init + [s[|s| - 1]] == s;
    }
  }

  lemma {:induction false} BigLoadStore(v: nat, n: nat)
    requires v < Pow256(n)
    ensures BigValue(BigBytes(v, n)) == v
    decreases n
  {
    if n > 0 {
      BigLoadStore(v / 256, n - 1);
      assert BigBytes(v, n)[..n - 1] == BigBytes(v / 256, n - 1);
    }
  }

  lemma StoreLoad(order: Order, s: seq<byte>)
    ensures Store(order, Load(order, s), |s|) == s && Load(order, s) < Pow256(|s|)
  {
    BigStoreLoad(if order == Big then s else Rev(s));
    RevRev(s);
  }

  lemma LoadStore(order: Order, v: nat, n: nat)
    requires v < Pow256(n)
    ensures Load(order, Store(order, v, n)) == v
  {
    BigLoadStore(v, n);
    RevRev(BigBytes(v, n));
  }

  /** The value whose `n` bytes are those of `v` in the opposite order. */
  function Bswap(v: nat, n: nat): nat { BigValue(Rev(BigBytes(v, n))) }

  /** Swapping a loaded value reverses its bytes in memory. */
  lemma BswapReverses(order: Order, s: seq<byte>)
    ensures Store(order, Bswap(Load(order, s), |s|), |s|) == Rev(s)
    ensures Bswap(Load(order, s), |s|) == Load(if order == Big then Little else Big, s)
  {
    var big := if order == Big then s else Rev(s);
    BigStoreLoad(big);
    BigStoreLoad(Rev(big));
    RevRev(s);
  }

  lemma BswapTwice(v: nat, n: nat)
    requires v < Pow256(n)
    ensures Bswap(Bswap(v, n), n) == v
  {
    var s := BigBytes(v, n);
    BigLoadStore(v, n);
    BigStoreLoad(Rev(s));
    RevRev(s);
  }
}
