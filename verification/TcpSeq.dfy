/** Sequence numbers: 32-bit numbers on the wire, compared modulo 2^32, that stand for positions in a
    stream which has no bound. */
module TcpSeq {
  import opened Bytes

  const M := 0x1_0000_0000
  const HALF := 0x8000_0000

  function Wrap(p: int): u32 {
    p % M
  }

  /** `a - b` as an unsigned, and as a signed, 32-bit difference. */
  function Sub(a: u32, b: u32): u32 {
    Wrap(a - b)
  }

  function Diff(a: u32, b: u32): int {
    if Sub(a, b) < HALF then Sub(a, b) else Sub(a, b) - M
  }

  function Add(a: u32, n: int): u32 {
    Wrap(a + n)
  }

  /** `(((a)-(b))&0x80000000)` and the three macros made of it. */
  predicate SeqLt(a: u32, b: u32) {
    Sub(a, b) >= HALF
  }

  predicate SeqGt(a: u32, b: u32) {
    SeqLt(b, a)
  }

  predicate SeqLeq(a: u32, b: u32) {
    !SeqGt(a, b)
  }

  predicate SeqGeq(a: u32, b: u32) {
    !SeqLt(a, b)
  }

  /** Positions near enough for their order to show in 32 bits. */
  predicate Near(p: int, q: int) {
    -HALF < p - q < HALF
  }

  lemma WrapWrap(p: int, n: int)
    ensures Wrap(Wrap(p) + n) == Wrap(p + n)
    ensures Wrap(p) == p - M * (p / M)
  {
  }

  lemma SubWrap(p: int, q: int)
    ensures Sub(Wrap(p), Wrap(q)) == Wrap(p - q)
  {
    var i, j := p / M, q / M;
    assert Wrap(p) == p - M * i && Wrap(q) == q - M * j;
    WrapShift(p - q, j - i);
  }

  lemma WrapShift(p: int, k: int)
    ensures Wrap(p + M * k) == Wrap(p)
  {
    var i := p / M;
    assert p + M * k == M * (i + k) + p % M;
    Unique(p + M * k, i + k, p % M);
  }

  lemma Unique(p: int, i: int, r: int)
    requires p == M * i + r && 0 <= r < M
    ensures p % M == r
  {
  }

  /** The modular comparisons order the wire forms of near positions as the positions are ordered. */
  lemma Compare(p: int, q: int)
    requires Near(p, q)
    ensures SeqLt(Wrap(p), Wrap(q)) <==> p < q
    ensures SeqGt(Wrap(p), Wrap(q)) <==> p > q
    ensures SeqLeq(Wrap(p), Wrap(q)) <==> p <= q
    ensures SeqGeq(Wrap(p), Wrap(q)) <==> p >= q
    ensures Diff(Wrap(p), Wrap(q)) == p - q
    ensures Wrap(p) == Wrap(q) <==> p == q
    ensures p >= q ==> Sub(Wrap(p), Wrap(q)) == p - q
  {
    SubWrap(p, q);
    SubWrap(q, p);
  }

  lemma AddWrap(p: int, n: int)
    ensures Add(Wrap(p), n) == Wrap(p + n)
  {
    WrapWrap(p, n);
  }

  /** Outside that range they need not: 2^31 apart, each number is before the other. */
  lemma TooFar(p: int)
    ensures SeqLt(Wrap(p), Wrap(p + HALF)) && SeqLt(Wrap(p + HALF), Wrap(p))
  {
    SubWrap(p, p + HALF);
    SubWrap(p + HALF, p);
  }
}
