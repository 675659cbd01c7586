/** The hash over a page (archive/ar_wrap.c). */
module PageHash {
  import opened Bytes

  const WORD: int := 0x1_0000_0000

  /** The polynomial the hash evaluates at 33, before it is cut to 32 bits. */
  function Poly(s: seq<byte>): nat { if s == [] then 0 else 33 * Poly(s[..|s| - 1]) + s[|s| - 1] }

  function HashOf(s: seq<byte>): nat { Poly(s) % WORD }

  /** One `HASH4` step on 32-bit words: shift, add the word, add the byte. */
  function Mix(h: nat, b: byte): (r: nat)
    requires h < WORD
    ensures r < WORD
  {
    (h * 32 % WORD + h + b) % WORD
  }

  lemma MixExtends(s: seq<byte>, k: nat)
    requires k < |s|
    ensures HashOf(s[..k + 1]) == Mix(HashOf(s[..k]), s[k])
  {
    assert s[..k + 1][..k] == s[..k];
    var p := Poly(s[..k]);
    MixIsMod(p, s[k]);
  }

  lemma MixIsMod(p: nat, b: byte)
    ensures Mix(p % WORD, b) == (33 * p + b) % WORD
  {
    var q, h := p / WORD, p % WORD;
    assert 33 * p + b == WORD * (33 * q) + (33 * h + b);
    var u := h * 32 / WORD;
    assert 33 * h + b == WORD * u + (h * 32 % WORD + h + b);
    ModShift(33 * h + b, 33 * q);
    ModShift(h * 32 % WORD + h + b, u);
  }

  lemma ModShift(x: int, m: int)
    ensures (WORD * m + x) % WORD == x % WORD
  {
    var d := x / WORD;
    assert WORD * m + x == WORD * (m + d) + x % WORD;
  }

  /** How often the body of the unrolled loop is entered: the counter is a 32-bit word and is decremented
      before it is tested. */
  function Passes(len: nat): (r: nat)
    requires len < WORD
    ensures r > 0
  {
    var loop := (len + 7) % WORD / 8;
    if loop == 0 then WORD else loop
  }

  function FirstPass(len: nat): nat { if len % 8 == 0 then 8 else len % 8 }

  /** The bytes that are hashed: the first pass enters at the case label, later ones run all eight steps. */
  function Consumed(len: nat): nat
    requires len < WORD
  {
    if len == 0 then 0 else FirstPass(len) + 8 * (Passes(len) - 1)
  }

  /** Exactly the `len` bytes given are hashed, if and only if rounding the length up does not wrap. */
  lemma ConsumedCondition(len: nat)
    requires len < WORD
    ensures Consumed(len) == len <==> len <= WORD - 8
  {
  }

  /** One step. */
  method Hash4(k: seq<byte>, at: nat, h0: nat) returns (h: nat, next: nat)
    requires at < |k| && h0 == HashOf(k[..at])
    ensures next == at + 1 && h == HashOf(k[..next])
  {
    MixExtends(k, at);
    h, next := Mix(h0, k[at]), at + 1;
  }

  /** The body of the loop, entered at case label `entry` and falling through. */
  method Pass(k: seq<byte>, at: nat, entry: nat, h0: nat) returns (h: nat, next: nat)
    requires entry < 8 && at <= |k| && h0 == HashOf(k[..at])
    requires at + (if entry == 0 then 8 else entry) <= |k|
    ensures next == at + if entry == 0 then 8 else entry
    ensures h == HashOf(k[..next])
  {
    h, next := h0, at;
    if entry == 0 {
      h, next := Hash4(k, next, h);
    }
    if entry == 0 || entry >= 7 {
      h, next := Hash4(k, next, h);
    }
    if entry == 0 || entry >= 6 {
      h, next := Hash4(k, next, h);
    }
    if entry == 0 || entry >= 5 {
      h, next := Hash4(k, next, h);
    }
    if entry == 0 || entry >= 4 {
      h, next := Hash4(k, next, h);
    }
    if entry == 0 || entry >= 3 {
      h, next := Hash4(k, next, h);
    }
    if entry == 0 || entry >= 2 {
      h, next := Hash4(k, next, h);
    }
    if entry == 0 || entry >= 1 {
      h, next := Hash4(k, next, h);
    }
  }

  /**
   The eight-way unrolled hash. The memory behind `k` must reach as far as the loop reads, which is `len`
   for every length that does not wrap.
   */
  method HamFunc4(k: seq<byte>, len: nat) returns (h: nat)
    requires len < WORD && Consumed(len) <= |k|
    ensures h == HashOf(k[..Consumed(len)])
  {
    if len == 0 {
      return 0;
    }
    var loop := (len + 7) % WORD / 8;
    var entry: nat, next: nat := len % 8, 0;
    h := 0;
    ghost var left: nat := Passes(len);
    while true
      invariant 0 < left <= WORD && loop == if left == WORD then 0 else left
      invariant entry < 8 && next + (if entry == 0 then 8 else entry) + 8 * (left - 1) == Consumed(len)
      invariant h == HashOf(k[..next])
      decreases left
    {
      h, next := Pass(k, next, entry, h);
      entry := 0;
      loop := if loop == 0 then WORD - 1 else loop - 1;
      left := left - 1;
      if loop == 0 {
        break;
      }
    }
  }

  /** For every length up to 2^32 - 8 the result is the plain left fold over the given bytes. */
  method HashPage(page: seq<byte>) returns (h: nat)
    requires |page| <= WORD - 8
    ensures h == HashOf(page)
  {
    ConsumedCondition(|page|);
    h := HamFunc4(page, |page|);
    assert page[..|page|] == page;
  }

  function ByteSum(s: seq<byte>): nat { if s == [] then 0 else ByteSum(s[..|s| - 1]) + s[|s| - 1] }

  /** 33 is 1 modulo 32, so the low five bits of the hash are those of the sum of the bytes. */
  lemma LowBits(s: seq<byte>)
    ensures HashOf(s) % 32 == ByteSum(s) % 32
  {
    PolyLowBits(s);
    CutLowBits(Poly(s));
  }

  lemma {:induction false} PolyLowBits(s: seq<byte>)
    ensures Poly(s) % 32 == ByteSum(s) % 32
  {
    if s != [] {
      PolyLowBits(s[..|s| - 1]);
      AddLowBits(Poly(s[..|s| - 1]), ByteSum(s[..|s| - 1]), s[|s| - 1]);
    }
  }

  lemma AddLowBits(p: nat, q: nat, b: nat)
    requires p % 32 == q % 32
    ensures (33 * p + b) % 32 == (q + b) % 32
  {
    var u, v, r := p / 32, q / 32, p % 32;
    assert 33 * p + b == 32 * (33 * u + r) + (r + b);
    assert q + b == 32 * v + (r + b);
    Shift32(r + b, 33 * u + r);
    Shift32(r + b, v);
  }

  lemma Shift32(x: nat, m: nat)
    ensures (32 * m + x) % 32 == x % 32
  {
    var d := x / 32;
    assert 32 * m + x == 32 * (m + d) + x % 32;
  }

  lemma CutLowBits(p: nat)
    ensures p % WORD % 32 == p % 32
  {
    var q, h := p / WORD, p % WORD;
    assert p == 32 * (134217728 * q) + h;
  }

  lemma {:induction false} ZeroBytes(s: seq<byte>)
    requires forall i :: 0 <= i < |s| ==> s[i] == 0
    ensures Poly(s) == 0
  {
    if s != [] {
      ZeroBytes(s[..|s| - 1]);
    }
  }
}
