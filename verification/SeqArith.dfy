/** 32-bit sequence arithmetic of include/nty_tcp.h and src/nty_buffer.c.

    A sequence number names a stream position only modulo 2^32.  The lemmas here say when the
    modular comparisons agree with the order of the unbounded positions they stand for. */
module SeqArith {
  const TWO31: int := 0x8000_0000
  const TWO32: int := 0x1_0000_0000
  const MAXSEQ: int := 0xFFFF_FFFF

  type u8 = x: int | 0 <= x < 256
  type u16 = x: int | 0 <= x < 0x1_0000
  type u32 = x: int | 0 <= x < TWO32

  /** The value a C expression of type uint32_t takes. */
  function Wrap(x: int): u32 {
    x % 0x1_0000_0000
  }

  /** The conversion `(int32_t)x`. */
  function Signed(x: u32): int {
    if x < TWO31 then x else x - TWO32
  }

  predicate SeqLt(a: u32, b: u32) { Signed(Wrap(a - b)) < 0 }
  predicate SeqLeq(a: u32, b: u32) { Signed(Wrap(a - b)) <= 0 }
  predicate SeqGt(a: u32, b: u32) { Signed(Wrap(a - b)) > 0 }
  predicate SeqGeq(a: u32, b: u32) { Signed(Wrap(a - b)) >= 0 }
  predicate SeqBetween(a: u32, b: u32, c: u32) { SeqGeq(a, b) && SeqLeq(a, c) }

  function GetMinSeq(a: u32, b: u32): u32 {
    if a == b then a
    else if a < b then (if b - a <= MAXSEQ / 2 then a else b)
    else if a - b <= MAXSEQ / 2 then b else a
  }

  function GetMaxSeq(a: u32, b: u32): u32 {
    if a == b then a
    else if a < b then (if b - a <= MAXSEQ / 2 then b else a)
    else if a - b <= MAXSEQ / 2 then a else b
  }

  function Min(a: int, b: int): int { if a < b then a else b }

  function Max(a: int, b: int): int { if a > b then a else b }

  /** Two positions with the same image differ by a multiple of 2^32; two nearby ones are equal. */
  lemma WrapInjective(p: int, q: int)
    requires -TWO32 < p - q < TWO32
    ensures Wrap(p) == Wrap(q) <==> p == q
  {
  }

  lemma WrapAdd(p: int, k: int)
    ensures Wrap(Wrap(p) + k) == Wrap(p + k)
  {
  }

  lemma WrapCongruence(a: int, b: int, k: int)
    requires Wrap(a) == Wrap(b)
    ensures Wrap(a + k) == Wrap(b + k)
  {
    WrapAdd(a, k);
    WrapAdd(b, k);
  }

  /** A signed distance leads from one number to the other. */
  lemma SignedLeads(a: u32, b: u32)
    ensures Wrap(b + Signed(Wrap(a - b))) == a
  {
  }

  /** Subtracting two images gives the distance, as uint32_t sees it. */
  lemma WrapSub(p: int, q: int)
    ensures Wrap(Wrap(p) - Wrap(q)) == Wrap(p - q)
    ensures 0 <= p - q < TWO32 ==> Wrap(Wrap(p) - Wrap(q)) == p - q
  {
  }

  /** The TCP_SEQ_* macros decide the order of any two positions less than 2^31 apart. */
  lemma SeqOrder(p: int, q: int)
    requires -TWO31 < p - q < TWO31
    ensures SeqLt(Wrap(p), Wrap(q)) <==> p < q
    ensures SeqLeq(Wrap(p), Wrap(q)) <==> p <= q
    ensures SeqGt(Wrap(p), Wrap(q)) <==> p > q
    ensures SeqGeq(Wrap(p), Wrap(q)) <==> p >= q
  {
    WrapSub(p, q);
  }

  /** The distance itself survives the conversion to int32_t. */
  lemma SignedDistance(p: int, q: int)
    requires -TWO31 <= p - q < TWO31
    ensures Signed(Wrap(Wrap(p) - Wrap(q))) == p - q
  {
    WrapSub(p, q);
  }

  /** GetMinSeq and GetMaxSeq pick the earlier and the later of two positions less than 2^31 apart. */
  lemma MinMaxSeqOrder(p: int, q: int)
    requires -TWO31 < p - q < TWO31
    ensures GetMinSeq(Wrap(p), Wrap(q)) == Wrap(Min(p, q))
    ensures GetMaxSeq(Wrap(p), Wrap(q)) == Wrap(Max(p, q))
  {
  }

  /** GetMinSeq returns its first argument just when that one is not later; dually for GetMaxSeq. */
  lemma MinMaxSeqDecide(p: int, q: int)
    requires -TWO31 < p - q < TWO31
    ensures GetMinSeq(Wrap(p), Wrap(q)) == Wrap(p) <==> p <= q
    ensures GetMaxSeq(Wrap(p), Wrap(q)) == Wrap(q) <==> p <= q
  {
    MinMaxSeqOrder(p, q);
    WrapInjective(p, q);
  }

  /** At a distance of exactly 2^31 no modular comparison can know the order: TCP_SEQ_LT says "before"
      both ways round, and GetMinSeq falls back on the larger number. */
  lemma AntipodesAreUnordered(p: int)
    ensures SeqLt(Wrap(p), Wrap(p + TWO31)) && SeqLt(Wrap(p + TWO31), Wrap(p))
    ensures GetMinSeq(Wrap(p), Wrap(p + TWO31)) == Max(Wrap(p), Wrap(p + TWO31))
  {
    WrapSub(p, p + TWO31);
    WrapSub(p + TWO31, p);
  }
}
