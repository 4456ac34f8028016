/** The byte code: one opcode byte, then operands, an opcode's low bits telling how it repeats. */
module RegexCode {
  import opened Bytes
  import opened RegexMeaning

  const CBRA: byte := 2
  const CCHR: byte := 4
  const CDOT: byte := 8
  const CCL: byte := 12
  const CXCL: byte := 16
  const CDOL: byte := 20
  const CCEOF: byte := 22
  const CKET: byte := 24
  const CBACK: byte := 36
  const NCCL: byte := 40

  const STAR: byte := 1
  const RNGE: byte := 3

  // ----- bits

  function Pow2(m: nat): nat {
    if m == 0 then 1 else 2 * Pow2(m - 1)
  }

  /** Bit k of b: `b & bittab[k]`. */
  predicate BitOn(b: nat, k: nat) {
    if k == 0 then b % 2 == 1 else BitOn(b / 2, k - 1)
  }

  function SetBitOf(b: nat, k: nat): nat {
    if k == 0 then b + 1 - b % 2 else 2 * SetBitOf(b / 2, k - 1) + b % 2
  }

  lemma {:induction false} SetBitOfBits(b: nat, k: nat, j: nat)
    ensures BitOn(SetBitOf(b, k), j) == (j == k || BitOn(b, j))
  {
    var r := SetBitOf(b, k);
    if k == 0 {
      assert r / 2 == b / 2;
    } else {
      assert r / 2 == SetBitOf(b / 2, k - 1) && r % 2 == b % 2;
      if j > 0 {
        SetBitOfBits(b / 2, k - 1, j - 1);
      }
    }
  }

  lemma {:induction false} SetBitOfRange(b: nat, k: nat, m: nat)
    requires b < Pow2(m) && k < m
    ensures SetBitOf(b, k) < Pow2(m)
  {
    var h, r := b / 2, b % 2;
    assert b == 2 * h + r && Pow2(m) == 2 * Pow2(m - 1);
    if k > 0 {
      SetBitOfRange(h, k - 1, m - 1);
      assert SetBitOf(b, k) == 2 * SetBitOf(h, k - 1) + r;
    }
  }

  lemma {:induction false} SameBits(a: nat, b: nat, m: nat)
    requires a < Pow2(m) && b < Pow2(m)
    requires forall j :: 0 <= j < m ==> BitOn(a, j) == BitOn(b, j)
    ensures a == b
  {
    if m > 0 {
      assert BitOn(a, 0) == BitOn(b, 0);
      forall j | 0 <= j < m - 1
        ensures BitOn(a / 2, j) == BitOn(b / 2, j)
      {
        assert BitOn(a, j + 1) == BitOn(b, j + 1);
      }
      SameBits(a / 2, b / 2, m - 1);
    }
  }

  lemma SameBytes(a: byte, b: byte)
    requires forall j :: 0 <= j < 8 ==> BitOn(a, j) == BitOn(b, j)
    ensures a == b
  {
    assert Pow2(8) == 256;
    SameBits(a, b, 8);
  }

  /** `b | bittab[k]`. */
  function SetBit(b: byte, k: nat): byte
    requires k < 8
  {
    assert Pow2(8) == 256;
    SetBitOfRange(b, k, 8);
    SetBitOf(b, k)
  }

  function ClearLowOf(b: nat): nat {
    b - b % 2
  }

  lemma ClearLowBits(b: nat, j: nat)
    ensures BitOn(ClearLowOf(b), j) == (j != 0 && BitOn(b, j))
  {
    assert ClearLowOf(b) / 2 == b / 2;
  }

  /** `b & 0376`. */
  function ClearLow(b: byte): byte {
    ClearLowOf(b)
  }

  lemma {:induction false} InvertBits(b: nat, m: nat, j: nat)
    requires b < Pow2(m) && j < m
    ensures BitOn(Pow2(m) - 1 - b, j) == !BitOn(b, j)
  {
    var r := Pow2(m) - 1 - b;
    assert r % 2 == 1 - b % 2 && r / 2 == Pow2(m - 1) - 1 - b / 2;
    if j > 0 {
      InvertBits(b / 2, m - 1, j - 1);
    }
  }

  /** `b ^ 0377`. */
  function Invert(b: byte): byte {
    255 - b
  }

  lemma InvertBit(b: byte, j: nat)
    requires j < 8
    ensures BitOn(Invert(b), j) == !BitOn(b, j)
  {
    assert Pow2(8) == 256;
    InvertBits(b, 8, j);
  }

  // ----- bitmaps

  /** The bit of character c in the map that starts at code[ep]: `ISTHERE(c)`. */
  predicate IsThere(code: seq<byte>, ep: nat, c: byte)
    requires ep + c / 8 < |code|
  {
    BitOn(code[ep + c / 8], c % 8)
  }

  /** The byte whose bits say which of 8n .. 8n + k - 1 are in the set. */
  function ByteFrom(members: set<byte>, n: nat, k: nat): byte
    requires n < 32 && k <= 8
  {
    if k == 0 then 0
    else if 8 * n + k - 1 in members then SetBit(ByteFrom(members, n, k - 1), k - 1)
    else ByteFrom(members, n, k - 1)
  }

  lemma {:induction false} ByteFromBit(members: set<byte>, n: nat, k: nat, j: nat)
    requires n < 32 && k <= 8
    ensures BitOn(ByteFrom(members, n, k), j) == (j < k && 8 * n + j in members)
  {
    if k == 0 {
      NoBit(j);
    } else {
      ByteFromBit(members, n, k - 1, j);
      SetBitOfBits(ByteFrom(members, n, k - 1), k - 1, j);
    }
  }

  lemma {:induction false} NoBit(j: nat)
    ensures !BitOn(0, j)
  {
    if j > 0 {
      NoBit(j - 1);
    }
  }

  function MapOf(members: set<byte>, size: nat): (r: seq<byte>)
    requires size <= 32
    ensures |r| == size
  {
    seq(size, n requires 0 <= n < size => ByteFrom(members, n, 8))
  }

  lemma MapBit(members: set<byte>, size: nat, c: byte)
    requires size <= 32 && c < 8 * size
    ensures BitOn(MapOf(members, size)[c / 8], c % 8) == (c in members)
  {
    assert 8 * (c / 8) + c % 8 == c;
    ByteFromBit(members, c / 8, 8, c % 8);
  }

  /** A map with the right bits is the right map. */
  lemma MapIs(map_: seq<byte>, members: set<byte>)
    requires |map_| <= 32
    requires forall c: byte :: c < 8 * |map_| ==> BitOn(map_[c / 8], c % 8) == (c in members)
    ensures map_ == MapOf(members, |map_|)
  {
    forall n | 0 <= n < |map_|
      ensures map_[n] == MapOf(members, |map_|)[n]
    {
      forall j | 0 <= j < 8
        ensures BitOn(map_[n], j) == BitOn(MapOf(members, |map_|)[n], j)
      {
        var c: byte := 8 * n + j;
        assert c / 8 == n && c % 8 == j;
        MapBit(members, |map_|, c);
      }
      SameBytes(map_[n], MapOf(members, |map_|)[n]);
    }
  }

  // ----- instructions

  /** A class needs the 32-byte map as soon as it names a character past 127. */
  predicate Wide(k: Class) {
    k.first >= 128 || exists i :: 0 <= i < |k.rest| && k.rest[i].c >= 128
  }

  /** The set a class's map holds: NUL is put in so that the inverted 16-byte test refuses it. */
  function MapSet(k: Class): set<byte> {
    if !k.neg then Listed(k)
    else if Wide(k) then Span(1, 255) - Listed(k)
    else Listed(k) + {NUL}
  }

  function MapSize(k: Class): nat {
    if Wide(k) then 32 else 16
  }

  function AtomOp(a: Atom): byte {
    match a
    case Chr(_) => CCHR
    case Any => CDOT
    case Cls(k) => if Wide(k) then CXCL else if k.neg then NCCL else CCL
  }

  function AtomArg(a: Atom): seq<byte> {
    match a
    case Chr(c) => [c]
    case Any => []
    case Cls(k) => MapOf(MapSet(k), MapSize(k))
  }

  /** How an opcode says that its matcher repeats. */
  function Kind(op: Op): byte {
    match op
    case Many(_) => STAR
    case Between(_, _, _) => RNGE
    case BackMany(_) => STAR
    case _ => 0
  }

  function Suffix(op: Op): seq<byte> {
    if op.Between? then [op.lo, op.hi] else []
  }

  function Enc(op: Op): seq<byte> {
    match op
    case Dollar => [CDOL]
    case Open(k) => [CBRA, k]
    case Close(k) => [CKET, k]
    case Back(k) => [CBACK, k]
    case BackMany(k) => [CBACK + STAR, k]
    case _ => [AtomOp(op.a) + Kind(op)] + AtomArg(op.a) + Suffix(op)
  }

  function EncAll(ops: seq<Op>): seq<byte> {
    if ops == [] then [] else Enc(ops[0]) + EncAll(ops[1..])
  }

  /** `e` stands in the code at ep. */
  ghost predicate Has(code: seq<byte>, ep: nat, e: seq<byte>) {
    ep + |e| <= |code| && forall j :: 0 <= j < |e| ==> code[ep + j] == e[j]
  }

  lemma HasSplit(code: seq<byte>, ep: nat, x: seq<byte>, y: seq<byte>)
    requires Has(code, ep, x + y)
    ensures Has(code, ep, x) && Has(code, ep + |x|, y)
  {
    assert forall j :: 0 <= j < |x| ==> (x + y)[j] == x[j];
    forall j | 0 <= j < |y|
      ensures code[ep + |x| + j] == y[j]
    {
      assert (x + y)[|x| + j] == y[j];
    }
  }

  /** code[ep..] begins with the instructions of ops[i..] and an end mark. */
  ghost predicate Holds(code: seq<byte>, ep: nat, ops: seq<Op>, i: nat)
    requires i <= |ops|
    decreases |ops| - i
  {
    if i == |ops| then ep < |code| && code[ep] == CCEOF
    else
      Has(code, ep, Enc(ops[i]))
      && Holds(code, ep + |Enc(ops[i])|, ops, i + 1)
  }

  lemma {:induction false} EncAllHolds(code: seq<byte>, ep: nat, ops: seq<Op>, i: nat)
    requires i <= |ops| && Has(code, ep, EncAll(ops[i..]) + [CCEOF])
    ensures Holds(code, ep, ops, i)
    decreases |ops| - i
  {
    if i == |ops| {
      assert (EncAll(ops[i..]) + [CCEOF])[0] == CCEOF;
    } else {
      var e, tail := Enc(ops[i]), EncAll(ops[i + 1..]) + [CCEOF];
      assert ops[i..][1..] == ops[i + 1..];
      assert EncAll(ops[i..]) + [CCEOF] == e + tail;
      HasSplit(code, ep, e, tail);
      EncAllHolds(code, ep + |e|, ops, i + 1);
    }
  }

  // ----- what the tests on a map amount to

  lemma {:induction false} MembersNarrow(prev: byte, rest: seq<ClassItem>)
    requires forall i :: 0 <= i < |rest| ==> rest[i].c < 128
    ensures forall x :: x in Members(prev, rest) ==> x < 128
    decreases |rest|
  {
    if rest != [] {
      MembersNarrow(rest[0].c, rest[1..]);
    }
  }

  lemma ListedNarrow(k: Class)
    requires !Wide(k)
    ensures forall x :: x in Listed(k) ==> x < 128
  {
    MembersNarrow(k.first, k.rest);
  }

  /** A map in the code answers whether a character belongs to the class. */
  lemma ClassTest(k: Class, code: seq<byte>, ep: nat, c: byte)
    requires NUL !in Listed(k)
    requires Has(code, ep, MapOf(MapSet(k), MapSize(k)))
    ensures Wide(k) ==> IsThere(code, ep, c) == InClass(k, c)
    ensures !Wide(k) ==> ((c < 128 && IsThere(code, ep, c)) != k.neg) == InClass(k, c)
  {
    if c < 8 * MapSize(k) {
      MapBit(MapSet(k), MapSize(k), c);
      assert code[ep + c / 8] == MapOf(MapSet(k), MapSize(k))[c / 8];
    }
    if !Wide(k) {
      ListedNarrow(k);
    }
  }
}
