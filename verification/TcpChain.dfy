/** Chains of message blocks: the queue of messages, each a chain of blocks, that hangs off a stream. */
module TcpChain {
  import opened Bytes
  import opened TcpReass

  type Block = seq<byte>
  type Chain = seq<Block>

  /** A message has at least one block. */
  ghost predicate Messages(q: seq<Chain>) {
    forall i :: 0 <= i < |q| ==> q[i] != []
  }

  /** All the bytes of a queue, in order. */
  function QueueBytes(q: seq<Chain>): seq<byte> {
    if q == [] then [] else Flatten(q[0]) + QueueBytes(q[1..])
  }

  lemma {:induction false} QueueAppend(q: seq<Chain>, m: Chain)
    ensures QueueBytes(q + [m]) == QueueBytes(q) + Flatten(m)
  {
    hide Flatten;
    if q == [] {
      assert q + [m] == [m] && [m][1..] == [];
      assert QueueBytes([m]) == Flatten(m) + [];
    } else {
      QueueAppend(q[1..], m);
      assert (q + [m])[1..] == q[1..] + [m];
    }
  }

  lemma QueueNone()
    ensures QueueBytes([]) == []
  {
  }

  lemma QueueCons(m: Chain, q: seq<Chain>)
    ensures QueueBytes([m] + q) == Flatten(m) + QueueBytes(q)
  {
    assert ([m] + q)[1..] == q;
  }

  lemma FlattenCons(b: Block, m: Chain)
    ensures Flatten([b] + m) == b + Flatten(m)
  {
    assert ([b] + m)[1..] == m;
  }

  lemma DropDrop(s: seq<byte>, x: nat, y: nat)
    requires x + y <= |s|
    ensures s[x..][y..] == s[x + y..]
  {
  }

  /** `yhtp_qdrop`'s inner loop: blocks freed from the front of one message, the last of them cut. */
  method DropBlocks(bp0: Chain, k: nat) returns (bp: Chain, len: nat)
    ensures bp == [] ==> len + |Flatten(bp0)| == k
    ensures bp != [] ==> k <= |Flatten(bp0)| && Flatten(bp) == Flatten(bp0)[k..]
  {
    hide Flatten;
    bp, len := bp0, k;
    assert Flatten(bp0) == Flatten(bp0)[0..];
    while bp != []
      invariant len <= k && k - len <= |Flatten(bp0)| && Flatten(bp) == Flatten(bp0)[k - len..]
      decreases |bp|
    {
      var n := |bp[0]|;
      FlattenCons(bp[0], bp[1..]);
      assert [bp[0]] + bp[1..] == bp;
      if len >= n {
        DropDrop(Flatten(bp0), k - len, n);
        assert Flatten(bp)[n..] == Flatten(bp[1..]);
        bp := bp[1..];
        len := len - n;
      } else {
        FlattenCons(bp[0][len..], bp[1..]);
        DropDrop(Flatten(bp0), k - len, len);
        assert Flatten(bp)[len..] == bp[0][len..] + Flatten(bp[1..]);
        bp := [bp[0][len..]] + bp[1..];
        return;
      }
    }
    FlattenNone();
  }

  lemma FlattenNone()
    ensures Flatten([]) == []
  {
  }

  /** `yhtp_qdrop`: k bytes off the front of the queue. */
  method Qdrop(q0: seq<Chain>, k: nat) returns (q: seq<Chain>)
    ensures QueueBytes(q) == if k <= |QueueBytes(q0)| then QueueBytes(q0)[k..] else []
    ensures Messages(q0) ==> Messages(q)
  {
    hide Flatten;
    ghost var all, at: nat := QueueBytes(q0), 0;
    var len: nat := k;
    q := q0;
    assert all == all[0..];
    while len > 0 && q != []
      invariant at + len == k && at <= |all| && QueueBytes(q) == all[at..]
      invariant Messages(q0) ==> Messages(q)
      decreases |q|
    {
      var bp, rest := q[0], q[1..];
      QueueCons(bp, rest);
      assert [bp] + rest == q;
      ghost var m, before := Flatten(bp), len;
      bp, len := DropBlocks(bp, len);
      q := rest;
      if bp != [] {
        QueueCons(bp, rest);
        DropDrop(all, at, before);
        assert (m + QueueBytes(rest))[before..] == m[before..] + QueueBytes(rest);
        q := [bp] + rest;
        return;
      }
      DropDrop(all, at, |m|);
      assert (m + QueueBytes(rest))[|m|..] == QueueBytes(rest);
      at := at + |m|;
    }
  }

  // ----- duplicating a range

  datatype Dup = NotEnough | Copied(blocks: Chain) | Panic

  /** What is left of a queue from block j of its first message on. */
  function From(q: seq<Chain>, j: nat): seq<byte> {
    if q == [] || j > |q[0]| then QueueBytes(q) else Flatten(q[0][j..]) + QueueBytes(q[1..])
  }

  lemma FromStep(q: seq<Chain>, j: nat)
    requires q != [] && j < |q[0]|
    ensures From(q, j) == q[0][j] + From(q, j + 1)
  {
    FlattenCons(q[0][j], q[0][j + 1..]);
    assert [q[0][j]] + q[0][j + 1..] == q[0][j..];
    assert q[0][j] + Flatten(q[0][j + 1..]) + QueueBytes(q[1..])
        == q[0][j] + (Flatten(q[0][j + 1..]) + QueueBytes(q[1..]));
  }

  lemma FromNext(q: seq<Chain>)
    requires q != []
    ensures From(q, |q[0]|) == QueueBytes(q[1..])
    ensures q[1..] != [] ==> QueueBytes(q[1..]) == From(q[1..], 0)
    ensures From(q, 0) == QueueBytes(q)
  {
    assert q[0][|q[0]|..] == [];
    assert q[1..] != [] ==> q[1..][0][0..] == q[1..][0];
    assert q[0][0..] == q[0];
  }

  /** Finds the block that holds byte `off`: it is block j of the first message of q. */
  method FindBlock(q0: seq<Chain>, off0: nat) returns (found: bool, q: seq<Chain>, j: nat, off: nat)
    ensures found <==> off0 < |QueueBytes(q0)|
    ensures found ==> q != [] && j < |q[0]| && off < |q[0][j]|
    ensures found ==> QueueBytes(q0)[off0..] == From(q, j)[off..]
    ensures Messages(q0) ==> Messages(q)
  {
    hide Flatten, From, QueueBytes;
    ghost var all := QueueBytes(q0);
    q, j, off := q0, 0, off0;
    if q == [] {
      QueueNone();
      return false, q, j, off;
    }
    FromNext(q);
    assert all[off0 - off..] == all;
    while true
      invariant q != [] && j <= |q[0]| && off <= off0 && off0 - off <= |all|
      invariant From(q, j) == all[off0 - off..]
      invariant Messages(q0) ==> Messages(q)
      decreases |q|, |q[0]| - j
    {
      if j < |q[0]| {
        FromStep(q, j);
        if off < |q[0][j]| {
          DropDrop(all, off0 - off, off);
          return true, q, j, off;
        }
        DropDrop(all, off0 - off, |q[0][j]|);
        assert From(q, j)[|q[0][j]|..] == From(q, j + 1);
        off := off - |q[0][j]|;
        j := j + 1;
      } else {
        FromNext(q);
        if q[1..] == [] {
          QueueNone();
          return false, q, j, off;
        }
        q, j := q[1..], 0;
      }
    }
  }

  /** Block j of the first message, or the first block of the next one, when there is one.  Empty messages
      have no blocks. */
  method NextBlock(q0: seq<Chain>, j0: nat) returns (more: bool, q: seq<Chain>, j: nat)
    requires q0 != [] && j0 < |q0[0]| && Messages(q0)
    ensures more ==> q != [] && j < |q[0]| && From(q0, j0 + 1) == From(q, j)
    ensures more ==> Messages(q) && (|q| < |q0| || (q == q0 && j == j0 + 1))
    ensures !more ==> From(q0, j0 + 1) == []
  {
    q, j := q0, j0 + 1;
    if j < |q[0]| {
      return true, q, j;
    }
    FromNext(q);
    q, j := q[1..], 0;
    more := q != [];
  }

  lemma FlattenLast(c: Chain, b: Block, k: nat)
    requires k <= |b|
    ensures Flatten(c + [b]) == Flatten(c) + b
    ensures Flatten(c + [b[..k]]) == Flatten(c + [b])[..|Flatten(c)| + k]
  {
    FlattenAppend(c, [b]);
    FlattenAppend(c, [b[..k]]);
    FlattenCons(b, []);
    FlattenCons(b[..k], []);
    assert [b] + [] == [b] && [b[..k]] + [] == [b[..k]];
    assert b + Flatten([]) == b && b[..k] + Flatten([]) == b[..k];
  }

  /** `yhtp_dupblks`: a copy of `len` bytes from offset `off`.  Too few bytes behind `off` and it panics. */
  method Dupblks(q0: seq<Chain>, off: nat, len: nat) returns (r: Dup)
    requires Messages(q0)
    ensures r.NotEnough? <==> off >= |QueueBytes(q0)|
    ensures r.Panic? <==> off < |QueueBytes(q0)| < off + len
    ensures r.Copied? ==> Flatten(r.blocks) == QueueBytes(q0)[off..off + len]
  {
    hide Flatten, QueueBytes, From;
    ghost var all := QueueBytes(q0);
    var found, q, j: nat, o := FindBlock(q0, off);
    if !found {
      return NotEnough;
    }
    FromStep(q, j);
    var blocks := [q[0][j][o..]];
    var left: int := len - |blocks[0]|;
    FlattenLast([], blocks[0], 0);
    FlattenNone();
    assert [] + [blocks[0]] == blocks;
    var more := true;
    while left > 0 && more
      invariant more ==> q != [] && j < |q[0]| && Messages(q)
      invariant blocks != [] && left + |blocks[|blocks| - 1]| >= 0 && |Flatten(blocks)| + left == len
      invariant if more then all[off..] == Flatten(blocks) + From(q, j + 1)
                else left > 0 && all[off..] == Flatten(blocks)
      decreases more, |q|, if more then |q[0]| - j else 0
    {
      more, q, j := NextBlock(q, j);
      if more {
        var b := q[0][j];
        FromStep(q, j);
        FlattenLast(blocks, b, 0);
        assert Flatten(blocks) + (b + From(q, j + 1)) == Flatten(blocks) + b + From(q, j + 1);
        blocks, left := blocks + [b], left - |b|;
      }
    }
    if left > 0 {
      return Panic;
    }
    var n := |blocks| - 1;
    var last := blocks[n];
    FlattenLast(blocks[..n], last, |last| + left);
    assert blocks[..n] + [last] == blocks;
    assert Flatten(blocks)[..len] == all[off..][..len];
    assert all[off..][..len] == all[off..off + len];
    return Copied(blocks[..n] + [last[..|last| + left]]);
  }

  lemma SliceAfter(all: seq<byte>, off: nat, len: nat, k: nat)
    requires k <= off && off + len <= |all|
    ensures all[off..off + len] == all[k..][off - k..off - k + len]
  {
  }

  /** What `yhtp_dupblks` reads before `yhtp_qdrop` has dropped k bytes, it reads k lower after. */
  method SliceAroundDrop(q0: seq<Chain>, off: nat, len: nat, k: nat) returns (before: Dup, after: Dup)
    requires Messages(q0) && k <= off < |QueueBytes(q0)| && off + len <= |QueueBytes(q0)|
    ensures before.Copied? && after.Copied? && Flatten(before.blocks) == Flatten(after.blocks)
  {
    hide Flatten, QueueBytes;
    before := Dupblks(q0, off, len);
    var q := Qdrop(q0, k);
    after := Dupblks(q, off - k, len);
    SliceAfter(QueueBytes(q0), off, len, k);
  }
}
