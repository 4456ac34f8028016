/** `yhin_cksum`: the Internet checksum (RFC 1071) over a chain of blocks, on a little-endian machine. */
module Cksum {
  import opened Bytes

  /** A block: whether its first byte has an odd address, and its bytes. */
  datatype Mblk = Mblk(odd: bool, data: seq<byte>)

  function Flat(mp: seq<Mblk>): seq<byte> {
    if mp == [] then [] else mp[0].data + Flat(mp[1..])
  }

  // ----- one's-complement sums

  /** A 16-bit word as this machine reads it. */
  function Word(lo: byte, hi: byte): nat {
    lo as nat + 256 * (hi as nat)
  }

  /** Addition of 16-bit numbers with end-around carry. */
  function EndAround(a: nat, b: nat): nat {
    if a + b > 65535 then a + b - 65535 else a + b
  }

  /** The one's-complement sum of the bytes taken as 16-bit words, low byte first; an odd byte at the end is
      followed by a zero. */
  function OnesSum(b: seq<byte>): nat {
    if b == [] then 0
    else if |b| == 1 then Word(b[0], 0)
    else EndAround(Word(b[0], b[1]), OnesSum(b[2..]))
  }

  /** The same with the high byte first, which is the order of the network. */
  function OnesSumBig(b: seq<byte>): nat {
    if b == [] then 0
    else if |b| == 1 then Word(0, b[0])
    else EndAround(Word(b[1], b[0]), OnesSumBig(b[2..]))
  }

  function Swap16(x: nat): nat {
    x % 256 * 256 + x / 256
  }

  // ----- numbers that fold to the same

  /** The 16-bit number that x folds to: 0 for 0 only, congruent to x modulo 65535. */
  function Canon(x: nat): (y: nat)
    ensures y <= 65535 && (y == 0 <==> x == 0)
  {
    if x == 0 then 0 else (x - 1) % 65535 + 1
  }

  lemma CanonIs(x: nat, y: nat, k: nat)
    requires x == y + 65535 * k && 1 <= y <= 65535
    ensures Canon(x) == y
  {
    assert (x - 1) == 65535 * k + (y - 1);
    DivMod(x - 1, k, y - 1);
  }

  lemma DivMod(x: nat, k: nat, r: nat)
    requires x == 65535 * k + r && r < 65535
    ensures x % 65535 == r
  {
  }

  lemma CanonOf(x: nat) returns (k: nat)
    ensures x == Canon(x) + 65535 * k
  {
    if x == 0 {
      k := 0;
    } else {
      k := (x - 1) / 65535;
    }
  }

  lemma CanonSmall(x: nat)
    requires x <= 65535
    ensures Canon(x) == x
  {
  }

  lemma CanonAdd(a: nat, b: nat, c: nat)
    requires Canon(a) == Canon(b)
    ensures Canon(a + c) == Canon(b + c)
  {
    if a != 0 && b != 0 {
      hide Canon;
      var i := CanonOf(a);
      var j := CanonOf(b);
      var k := CanonOf(a + c);
      var y := Canon(a + c);
      CanonShift(b + c, y, k - i + j);
    }
  }

  /** A difference of a multiple of 65535 between numbers that are not 0. */
  lemma CanonShift(x: nat, y: nat, k: int)
    requires x == y + 65535 * k && 1 <= y <= 65535 && x != 0
    ensures Canon(x) == y
  {
    CanonIs(x, y, k);
  }

  lemma CanonScale(a: nat, b: nat)
    requires Canon(a) == Canon(b)
    ensures Canon(256 * a) == Canon(256 * b)
  {
    if a != 0 && b != 0 {
      var i := CanonOf(a);
      var j := CanonOf(b);
      var k := CanonOf(256 * a);
      CanonShift(256 * b, Canon(256 * a), k - 256 * i + 256 * j);
    }
  }

  /** `(sum & 0xffff) + (sum >> 16)` */
  function Fold(x: nat): nat {
    x % 65536 + x / 65536
  }

  lemma FoldCanon(x: nat)
    ensures Canon(Fold(x)) == Canon(x)
  {
    if x != 0 {
      var k := CanonOf(x);
      CanonShift(Fold(x), Canon(x), k - x / 65536);
    }
  }

  lemma SwapCanon(x: nat)
    requires x <= 65535
    ensures Canon(Swap16(x)) == Canon(256 * x) && Swap16(x) <= 65535
  {
    if x != 0 {
      var k := CanonOf(256 * x);
      CanonShift(Swap16(x), Canon(256 * x), k - x / 256);
    }
  }

  // ----- weighted sums

  /** Bytes with the weights 1 and 256 in turn. */
  function Weighted(b: seq<byte>, high: bool): nat {
    if b == [] then 0 else (if high then Word(0, b[0]) else Word(b[0], 0)) + Weighted(b[1..], !high)
  }

  lemma {:induction false} WeightedAppend(x: seq<byte>, y: seq<byte>, high: bool)
    ensures Weighted(x + y, high) == Weighted(x, high) + Weighted(y, if |x| % 2 == 0 then high else !high)
  {
    if x == [] {
      assert x + y == y;
    } else {
      WeightedAppend(x[1..], y, !high);
      assert (x + y)[1..] == x[1..] + y;
    }
  }

  /** Shifting all bytes by one place multiplies by 256. */
  lemma {:induction false} Flip(b: seq<byte>, high: bool)
    ensures Canon(Weighted(b, !high)) == Canon(256 * Weighted(b, high))
  {
    if b != [] {
      var n: nat, w := b[0], Weighted(b[1..], !high);
      Flip(b[1..], !high);
      if high {
        assert Weighted(b, !high) == n + Weighted(b[1..], high);
        CanonAdd(Weighted(b[1..], high), 256 * w, n);
        assert 256 * Weighted(b, high) == 65535 * n + n + 256 * w;
        var k := CanonOf(n + 256 * w);
        if n + 256 * w != 0 {
          CanonShift(256 * Weighted(b, high), Canon(n + 256 * w), k + n);
        }
      } else {
        assert Weighted(b, !high) == 256 * n + Weighted(b[1..], high);
        CanonAdd(Weighted(b[1..], high), 256 * w, 256 * n);
      }
    }
  }

  lemma EndAroundCanon(a: nat, b: nat)
    requires a <= 65535 && b <= 65535
    ensures EndAround(a, b) == Canon(a + b)
  {
    if a + b > 65535 {
      CanonShift(a + b, a + b - 65535, 1);
    } else {
      CanonSmall(a + b);
    }
  }

  lemma {:induction false} OnesSumIs(b: seq<byte>)
    ensures OnesSum(b) == Canon(Weighted(b, false))
    decreases |b|
  {
    if |b| == 1 {
      assert Weighted(b, false) == Word(b[0], 0) + Weighted([], true);
      CanonSmall(Word(b[0], 0));
    } else if |b| > 1 {
      var w := Word(b[0], b[1]);
      OnesSumIs(b[2..]);
      assert b[1..][1..] == b[2..];
      assert Weighted(b, false) == w + Weighted(b[2..], false);
      EndAroundCanon(w, OnesSum(b[2..]));
      CanonTwice(Weighted(b[2..], false));
      CanonAdd(Canon(Weighted(b[2..], false)), Weighted(b[2..], false), w);
    }
  }

  lemma {:induction false} OnesSumBigIs(b: seq<byte>)
    ensures OnesSumBig(b) == Canon(Weighted(b, true))
    decreases |b|
  {
    if |b| == 1 {
      assert Weighted(b, true) == Word(0, b[0]) + Weighted([], false);
      CanonSmall(Word(0, b[0]));
    } else if |b| > 1 {
      var w := Word(b[1], b[0]);
      OnesSumBigIs(b[2..]);
      assert b[1..][1..] == b[2..];
      assert Weighted(b, true) == w + Weighted(b[2..], true);
      EndAroundCanon(w, OnesSumBig(b[2..]));
      CanonTwice(Weighted(b[2..], true));
      CanonAdd(Canon(Weighted(b[2..], true)), Weighted(b[2..], true), w);
    }
  }

  lemma CanonTwice(x: nat)
    ensures Canon(Canon(x)) == Canon(x)
  {
    CanonSmall(Canon(x));
  }

  /** The sums in the two byte orders are each other's bytes swapped (RFC 1071 section 2 (B)). */
  lemma ByteOrder(b: seq<byte>)
    ensures Swap16(OnesSum(b)) == OnesSumBig(b)
  {
    OnesSumIs(b);
    OnesSumBigIs(b);
    var w := Weighted(b, false);
    SwapCanon(Canon(w));
    CanonTwice(w);
    CanonScale(Canon(w), w);
    Flip(b, false);
    CanonSmall(Swap16(Canon(w)));
  }

  // ----- the checksum

  /** The sum so far stands for the bytes so far, in the frame that `fswap` tells. */
  ghost predicate Stands(sum: nat, done: seq<byte>, fswap: bool) {
    sum <= 65535 && Canon(sum) == Canon(Weighted(done, fswap)) && (fswap <==> |done| % 2 == 1)
  }

  lemma ByteMore(done: seq<byte>, b: byte, fswap: bool)
    requires fswap <==> |done| % 2 == 1
    ensures Weighted(done + [b], fswap) == Weighted(done, fswap) + Word(b, 0)
  {
    WeightedAppend(done, [b], fswap);
    assert Weighted([b], false) == Word(b, 0) + Weighted([], true);
  }

  lemma FoldOnce(x: nat)
    requires x <= 65535 + 255
    ensures Fold(x) <= 65535
  {
  }

  lemma ByteStands(sum: nat, y: nat, z: nat, done: seq<byte>, b: byte, fswap: bool)
    requires Stands(sum, done, fswap) && y <= 65535
    requires Canon(y) == Canon(sum + b) && Canon(z) == Canon(256 * y) && z <= 65535
    ensures Stands(z, done + [b], !fswap)
  {
    ByteMore(done, b, fswap);
    OddEven(done, b, fswap);
    hide Canon, Weighted;
    CanonAdd(sum, Weighted(done, fswap), b);
    CanonScale(y, Weighted(done + [b], fswap));
    Flip(done + [b], fswap);
  }

  lemma OddEven(done: seq<byte>, b: byte, fswap: bool)
    requires fswap <==> |done| % 2 == 1
    ensures !fswap <==> |done + [b]| % 2 == 1
  {
  }

  /** A byte with the whole sum rotated after it. */
  method AddByte(sum0: u32, b: byte, ghost done: seq<byte>, ghost fswap: bool) returns (sum: u32)
    requires Stands(sum0, done, fswap)
    ensures Stands(sum, done + [b], !fswap)
  {
    var x: u32 := sum0 + b;
    FoldOnce(x);
    FoldCanon(x);
    var y: u32 := x % 65536 + x / 65536;
    SwapCanon(y);
    sum := y % 256 * 256 + y / 256;
    ByteStands(sum0, y, sum, done, b, fswap);
  }

  /** Words, as they stand in the block, into the low end of a wide sum. */
  method AddWords(sum0: u32, w: seq<byte>, ghost done: seq<byte>, ghost fswap: bool) returns (sum: u32)
    requires Stands(sum0, done, fswap) && |w| <= 65535
    ensures Stands(sum, done + w[..|w| - |w| % 2], fswap)
  {
    hide Canon, Weighted;
    var nwords, i := |w| / 2, 0;
    sum := sum0;
    assert done + w[..0] == done;
    while i < nwords
      invariant 0 <= i <= nwords && sum <= 65535 * (i + 1)
      invariant Canon(sum) == Canon(Weighted(done + w[..2 * i], fswap))
      decreases nwords - i
    {
      WordMore(done, w, i, fswap);
      CanonAdd(sum, Weighted(done + w[..2 * i], fswap), Word(w[2 * i], w[2 * i + 1]));
      sum := sum + Word(w[2 * i], w[2 * i + 1]);
      i := i + 1;
    }
    while sum / 65536 != 0
      invariant Canon(sum) == Canon(Weighted(done + w[..2 * i], fswap))
      decreases sum
    {
      FoldCanon(sum);
      sum := sum % 65536 + sum / 65536;
    }
    assert |w| - |w| % 2 == 2 * nwords;
  }

  lemma WordMore(done: seq<byte>, w: seq<byte>, i: nat, fswap: bool)
    requires 2 * i + 1 < |w| && (fswap <==> |done| % 2 == 1)
    ensures Weighted(done + w[..2 * i + 2], fswap)
         == Weighted(done + w[..2 * i], fswap) + Word(w[2 * i], w[2 * i + 1])
  {
    var x, y := done + w[..2 * i], [w[2 * i], w[2 * i + 1]];
    assert done + w[..2 * i + 2] == x + y;
    WeightedAppend(x, y, fswap);
    assert y[1..] == [w[2 * i + 1]] && y[1..][1..] == [];
    assert Weighted(y, false) == Word(y[0], 0) + Weighted(y[1..], true);
    assert Weighted(y[1..], true) == Word(0, y[1]) + Weighted([], false);
  }

  /** The part of a block that counts. */
  method AddBlock(sum0: u32, fswap0: bool, odd: bool, w0: seq<byte>, ghost done: seq<byte>)
    returns (sum: u32, fswap: bool)
    requires Stands(sum0, done, fswap0) && |w0| <= 65535
    ensures Stands(sum, done + w0, fswap)
  {
    hide Stands;
    var w := w0;
    ghost var d := done;
    sum, fswap := sum0, fswap0;
    assert d + w == done + w0;
    if odd && |w| > 0 {
      sum := AddByte(sum, w[0], d, fswap);
      fswap := !fswap;
      d := d + [w[0]];
      w := w[1..];
      assert d + w == done + w0;
    }
    sum := AddWords(sum, w, d, fswap);
    ghost var e := |w| - |w| % 2;
    if |w| % 2 == 1 {
      sum := AddByte(sum, w[|w| - 1], d + w[..e], fswap);
      fswap := !fswap;
      assert d + w[..e] + [w[|w| - 1]] == d + w;
    } else {
      assert w[..e] == w;
    }
  }

  lemma FlatCons(m: Mblk, rest: seq<Mblk>)
    ensures Flat([m] + rest) == m.data + Flat(rest)
  {
    assert ([m] + rest)[1..] == rest;
  }

  /** `yhin_cksum`.  A chain too short is a panic.  However the bytes are split into blocks and wherever the
      blocks lie, the result is the complement of the one's-complement sum. */
  method Sum(mp0: seq<Mblk>, len0: nat) returns (panic: bool, r: nat)
    requires len0 <= 65535
    ensures panic <==> len0 > |Flat(mp0)|
    ensures !panic ==> r == 65535 - OnesSum(Flat(mp0)[..len0])
  {
    hide Flat, Canon, Weighted, OnesSum;
    var sum: u32, fswap, mp, len: nat := 0, false, mp0, len0;
    ghost var flat := Flat(mp0);
    ghost var at: nat := 0;
    StandsNone();
    FlatNone();
    assert flat[..0] == [] && flat[0..] == flat;
    while mp != [] && len > 0
      invariant at + len == len0 && at <= |flat| && Stands(sum, flat[..at], fswap)
      invariant len > 0 ==> Flat(mp) == flat[at..]
      decreases |mp|
    {
      var m := mp[0];
      assert [m] + mp[1..] == mp;
      FlatCons(m, mp[1..]);
      var mlen := if len < |m.data| then len else |m.data|;
      sum, fswap := AddBlock(sum, fswap, m.odd, m.data[..mlen], flat[..at]);
      NextBlock(flat, at, m.data, Flat(mp[1..]), mlen);
      len, at := len - mlen, at + mlen;
      mp := mp[1..];
    }
    if len > 0 {
      return true, 0;
    }
    if fswap {
      sum := Swapped(sum, flat[..at]);
    }
    StandsSum(sum, flat[..at]);
    panic, r := false, 65535 - sum;
  }

  lemma NextBlock(flat: seq<byte>, at: nat, data: seq<byte>, rest: seq<byte>, mlen: nat)
    requires at <= |flat| && flat[at..] == data + rest && mlen <= |data|
    ensures at + mlen <= |flat| && flat[..at] + data[..mlen] == flat[..at + mlen]
    ensures mlen == |data| ==> rest == flat[at + mlen..]
  {
    assert flat[at..][..mlen] == data[..mlen];
    assert flat[at..][|data|..] == rest;
  }

  lemma StandsNone()
    ensures Stands(0, [], false)
  {
  }

  lemma FlatNone()
    ensures Flat([]) == []
  {
  }

  method Swapped(sum0: u32, ghost done: seq<byte>) returns (sum: u32)
    requires Stands(sum0, done, true)
    ensures sum <= 65535 && Canon(sum) == Canon(Weighted(done, false))
  {
    SwapCanon(sum0);
    sum := sum0 % 256 * 256 + sum0 / 256;
    CanonScale(sum0, Weighted(done, true));
    Flip(done, true);
  }

  lemma StandsSum(sum: nat, done: seq<byte>)
    requires sum <= 65535 && Canon(sum) == Canon(Weighted(done, false))
    ensures sum == OnesSum(done)
  {
    OnesSumIs(done);
    CanonSmall(sum);
  }

  // ----- storing it

  /** The low byte first, as a 16-bit store on this machine does it. */
  function Stored(b: seq<byte>, at: nat, c: nat): seq<byte>
    requires at + 1 < |b| && c <= 65535
  {
    b[at := (c % 256) as byte][at + 1 := (c / 256) as byte]
  }

  lemma StoredWeight(b: seq<byte>, at: nat, c: nat)
    requires at + 1 < |b| && at % 2 == 0 && c <= 65535 && b[at] == 0 && b[at + 1] == 0
    ensures Weighted(Stored(b, at, c), false) == Weighted(b, false) + c
  {
    hide Weighted;
    var s := Stored(b, at, c);
    var x, z := b[..at], b[at + 2..];
    WordAt(x, 0, 0, z);
    WordAt(x, (c % 256) as byte, (c / 256) as byte, z);
    assert b == x + ([0, 0] + z);
    assert s == x + ([(c % 256) as byte, (c / 256) as byte] + z);
  }

  lemma WordAt(x: seq<byte>, lo: byte, hi: byte, z: seq<byte>)
    requires |x| % 2 == 0
    ensures Weighted(x + ([lo, hi] + z), false) == Weighted(x, false) + Word(lo, hi) + Weighted(z, false)
  {
    WeightedAppend(x, [lo, hi] + z, false);
    assert ([lo, hi] + z)[1..] == [hi] + z && ([hi] + z)[1..] == z;
  }

  /** Put into a field that was zero, at an even offset, the checksum makes the checksum of the whole 0. */
  lemma StoredSumsToZero(b: seq<byte>, at: nat)
    requires at + 1 < |b| && at % 2 == 0 && b[at] == 0 && b[at + 1] == 0
    ensures OnesSum(b) <= 65535 && OnesSum(Stored(b, at, 65535 - OnesSum(b))) == 65535
  {
    OnesSumIs(b);
    var c := 65535 - OnesSum(b);
    var w := Weighted(b, false);
    StoredWeight(b, at, c);
    OnesSumIs(Stored(b, at, c));
    var k := CanonOf(w);
    CanonIs(w + c, 65535, k);
  }

  /** The check on input passes exactly when the field holds the checksum of the rest, or all ones where that
      is zero. */
  lemma PassesWhen(b: seq<byte>, at: nat, c: nat)
    requires at + 1 < |b| && at % 2 == 0 && c <= 65535 && b[at] == 0 && b[at + 1] == 0
    ensures OnesSum(b) <= 65535
    ensures OnesSum(Stored(b, at, c)) == 65535 <==>
              c == 65535 - OnesSum(b) || (c == 65535 && OnesSum(b) == 65535)
  {
    hide Canon, Weighted, OnesSum, Stored, EndAround;
    OnesSumIs(b);
    var w := Weighted(b, false);
    StoredWeight(b, at, c);
    OnesSumIs(Stored(b, at, c));
    CanonTwice(w);
    CanonAdd(Canon(w), w, c);
    EndAroundCanon(Canon(w), c);
    AllOnes(Canon(w), c);
  }

  lemma AllOnes(a: nat, c: nat)
    requires a <= 65535 && c <= 65535
    ensures EndAround(a, c) == 65535 <==> c == 65535 - a || (c == 65535 && a == 65535)
  {
  }
}
