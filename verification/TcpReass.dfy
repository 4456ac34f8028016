/** The out-of-order segment queue, on stream positions: what `yhtp_reass` does to it, and what that
    means for the bytes. */
module TcpReass {
  import opened Bytes

  /** A queued piece: its first position, its bytes, and the flag it came with, which is FIN on a segment and MF on
      a fragment of a datagram. */
  datatype Held = Held(pos: int, data: seq<byte>, flag: bool) {
    function End(): int {
      pos + |data|
    }
  }

  // ----- what the code does

  /** The place of the first queued segment that begins after `pos`. */
  function Split(segs: seq<Held>, pos: int): (i: nat)
    ensures i <= |segs|
    ensures forall j :: 0 <= j < i ==> segs[j].pos <= pos
    ensures i < |segs| ==> segs[i].pos > pos
  {
    if segs == [] || segs[0].pos > pos then 0 else 1 + Split(segs[1..], pos)
  }

  /** The first k bytes cut off. */
  function Cut(h: Held, k: nat): Held
    requires k <= |h.data|
  {
    Held(h.pos + k, h.data[k..], h.flag)
  }

  /** How far the segment before the incoming one reaches into it. */
  function Overlap(segs: seq<Held>, i: nat, sg: Held): int
    requires i <= |segs|
  {
    if i == 0 then 0 else segs[i - 1].End() - sg.pos
  }

  /** The later segments trimmed or dequeued up to `end`. */
  function TrimAfter(end: int, segs: seq<Held>): seq<Held> {
    if segs == [] || end <= segs[0].pos then segs
    else if end - segs[0].pos < |segs[0].data| then [Cut(segs[0], end - segs[0].pos)] + segs[1..]
    else TrimAfter(end, segs[1..])
  }

  lemma TrimStep(end: int, h: Held, rest: seq<Held>)
    ensures TrimAfter(end, []) == []
    ensures end <= h.pos ==> TrimAfter(end, [h] + rest) == [h] + rest
    ensures 0 < end - h.pos < |h.data| ==> TrimAfter(end, [h] + rest) == [Cut(h, end - h.pos)] + rest
    ensures end > h.pos && end - h.pos >= |h.data| ==> TrimAfter(end, [h] + rest) == TrimAfter(end, rest)
  {
    assert ([h] + rest)[1..] == rest;
  }

  lemma SplitIs(held: seq<Held>, pos: int, i: nat)
    requires i <= |held| && (forall j :: 0 <= j < i ==> held[j].pos <= pos)
    requires i < |held| ==> held[i].pos > pos
    ensures i == Split(held, pos)
  {
    var k := Split(held, pos);
    assert k < |held| ==> held[k].pos > pos;
    assert i < |held| ==> held[i].pos > pos;
  }

  /** The segment put in its place, trimmed by the one before and trimming the ones after it; or
      dropped when the one before has all of it. */
  function Insert(segs: seq<Held>, sg: Held): seq<Held> {
    var i := Split(segs, sg.pos);
    var k := Overlap(segs, i, sg);
    if k > 0 && k >= |sg.data| then segs
    else
      var sg' := if k > 0 then Cut(sg, k) else sg;
      segs[..i] + [sg'] + TrimAfter(sg'.End(), segs[i..])
  }

  /** Presenting: the next position, the messages handed over, the flag of the last of them, and
      what stays queued. */
  datatype Drained = Drained(nxt: int, msgs: seq<seq<byte>>, flag: bool, rest: seq<Held>)

  function Drain(nxt: int, segs: seq<Held>): Drained
    decreases |segs|
  {
    if segs == [] || segs[0].pos != nxt then Drained(nxt, [], false, segs)
    else
      var d := Drain(segs[0].End(), segs[1..]);
      Drained(d.nxt, [segs[0].data] + d.msgs, if d.msgs == [] then segs[0].flag else d.flag, d.rest)
  }

  // ----- what that means

  /** In order and without overlap, from `lo` on. */
  ghost predicate Sorted(lo: int, segs: seq<Held>) {
    (forall i :: 0 <= i < |segs| ==> lo <= segs[i].pos)
    && (forall i, j :: 0 <= i < j < |segs| ==> segs[i].End() <= segs[j].pos)
  }

  /** Every queued byte is the stream's byte at its position. */
  ghost predicate Agrees(h: Held, stream: seq<byte>) {
    0 <= h.pos && h.End() <= |stream| && h.data == stream[h.pos..h.End()]
  }

  ghost predicate AllAgree(segs: seq<Held>, stream: seq<byte>) {
    forall i :: 0 <= i < |segs| && segs[i].data != [] ==> Agrees(segs[i], stream)
  }

  predicate Within(h: Held, p: int) {
    h.pos <= p < h.End()
  }

  ghost predicate Covers(segs: seq<Held>, p: int) {
    exists i :: 0 <= i < |segs| && Within(segs[i], p)
  }

  lemma CutFacts(h: Held, k: nat, stream: seq<byte>)
    requires k <= |h.data|
    ensures Cut(h, k).End() == h.End()
    ensures forall p :: Within(Cut(h, k), p) <==> Within(h, p) && p >= h.pos + k
    ensures Agrees(h, stream) ==> Agrees(Cut(h, k), stream)
  {
    if Agrees(h, stream) {
      assert stream[h.pos..h.End()][k..] == stream[h.pos + k..h.End()];
    }
  }

  lemma CoversCons(h: Held, rest: seq<Held>, p: int)
    ensures Covers([h] + rest, p) <==> Within(h, p) || Covers(rest, p)
  {
    var all := [h] + rest;
    if Within(h, p) {
      assert Within(all[0], p);
    }
    if Covers(rest, p) {
      var i :| 0 <= i < |rest| && Within(rest[i], p);
      assert Within(all[i + 1], p);
    }
    if Covers(all, p) {
      var i :| 0 <= i < |all| && Within(all[i], p);
      if i > 0 {
        assert rest[i - 1] == all[i];
      }
    }
  }

  lemma CoversAppend(x: seq<Held>, y: seq<Held>, p: int)
    ensures Covers(x + y, p) <==> Covers(x, p) || Covers(y, p)
  {
    var all := x + y;
    if Covers(x, p) {
      var i :| 0 <= i < |x| && Within(x[i], p);
      assert Within(all[i], p);
    }
    if Covers(y, p) {
      var i :| 0 <= i < |y| && Within(y[i], p);
      assert Within(all[|x| + i], p);
    }
    if Covers(all, p) {
      var i :| 0 <= i < |all| && Within(all[i], p);
      if i < |x| {
        assert x[i] == all[i];
      } else {
        assert y[i - |x|] == all[i];
      }
    }
  }

  lemma SortedTail(lo: int, segs: seq<Held>)
    requires Sorted(lo, segs) && segs != []
    ensures Sorted(segs[0].End(), segs[1..]) && lo <= segs[0].pos
  {
  }

  lemma SortedCons(lo: int, h: Held, rest: seq<Held>)
    requires lo <= h.pos && Sorted(h.End(), rest)
    ensures Sorted(lo, [h] + rest)
  {
  }

  lemma {:induction false} TrimAfterFacts(lo: int, end: int, segs: seq<Held>, stream: seq<byte>)
    requires Sorted(lo, segs)
    ensures Sorted(end, TrimAfter(end, segs))
    ensures AllAgree(segs, stream) ==> AllAgree(TrimAfter(end, segs), stream)
    ensures forall p :: Covers(TrimAfter(end, segs), p) <==> Covers(segs, p) && p >= end
    decreases |segs|
  {
    if segs == [] {
    } else if end <= segs[0].pos {
      forall p | Covers(segs, p)
        ensures p >= end
      {
        var i :| 0 <= i < |segs| && Within(segs[i], p);
        assert i > 0 ==> segs[0].End() <= segs[i].pos;
      }
    } else {
      var h, rest := segs[0], segs[1..];
      assert segs == [h] + rest;
      SortedTail(lo, segs);
      if end - h.pos < |h.data| {
        TrimFirst(end, h, rest, stream);
      } else {
        TrimAfterFacts(h.End(), end, rest, stream);
        forall p
          ensures Covers(TrimAfter(end, segs), p) <==> Covers(segs, p) && p >= end
        {
          CoversCons(h, rest, p);
        }
        assert AllAgree(segs, stream) ==> AllAgree(rest, stream);
      }
    }
  }

  lemma TrimFirst(end: int, h: Held, rest: seq<Held>, stream: seq<byte>)
    requires h.pos < end < h.End() && Sorted(h.End(), rest)
    ensures var r := [Cut(h, end - h.pos)] + rest;
            Sorted(end, r)
            && (AllAgree([h] + rest, stream) ==> AllAgree(r, stream))
            && forall p :: Covers(r, p) <==> Covers([h] + rest, p) && p >= end
  {
    var c := Cut(h, end - h.pos);
    CutFacts(h, end - h.pos, stream);
    SortedCons(end, c, rest);
    forall p
      ensures Covers([c] + rest, p) <==> Covers([h] + rest, p) && p >= end
    {
      CoversCons(h, rest, p);
      CoversCons(c, rest, p);
      if Covers(rest, p) {
        var i :| 0 <= i < |rest| && Within(rest[i], p);
      }
    }
    if AllAgree([h] + rest, stream) {
      assert Agrees(([h] + rest)[0], stream);
      forall i | 0 <= i < |rest| && rest[i].data != []
        ensures Agrees(rest[i], stream)
      {
        assert ([h] + rest)[i + 1] == rest[i];
      }
    }
  }

  lemma SortedThree(lo: int, x: seq<Held>, h: Held, y: seq<Held>)
    requires Sorted(lo, x) && lo <= h.pos && Sorted(h.End(), y)
    requires forall j :: 0 <= j < |x| ==> x[j].End() <= h.pos
    ensures Sorted(lo, x + [h] + y)
  {
    var all := x + [h] + y;
    forall i, j | 0 <= i < j < |all|
      ensures all[i].End() <= all[j].pos
    {
      if j > |x| {
        assert all[j] == y[j - |x| - 1];
        if i > |x| {
          assert all[i] == y[i - |x| - 1];
        }
      }
    }
  }

  lemma AgreeThree(x: seq<Held>, h: Held, y: seq<Held>, stream: seq<byte>)
    requires AllAgree(x, stream) && AllAgree(y, stream) && (h.data != [] ==> Agrees(h, stream))
    ensures AllAgree(x + [h] + y, stream)
  {
    var all := x + [h] + y;
    forall i | 0 <= i < |all| && all[i].data != []
      ensures Agrees(all[i], stream)
    {
      if i > |x| {
        assert all[i] == y[i - |x| - 1];
      }
    }
  }

  lemma SplitSorted(lo: int, segs: seq<Held>, i: nat)
    requires Sorted(lo, segs) && i <= |segs|
    ensures Sorted(lo, segs[..i]) && Sorted(if i == 0 then lo else segs[i - 1].End(), segs[i..])
    ensures segs == segs[..i] + segs[i..]
  {
  }

  /** What the incoming segment keeps after the one before it has been heeded. */
  lemma EndsBefore(lo: int, segs: seq<Held>, i: nat, sg: Held)
    requires Sorted(lo, segs) && i == Split(segs, sg.pos)
    requires var k := Overlap(segs, i, sg); !(k > 0 && k >= |sg.data|)
    ensures var k := Overlap(segs, i, sg);
            forall j :: 0 <= j < i ==> segs[j].End() <= (if k > 0 then sg.pos + k else sg.pos)
  {
  }

  /** Queueing a segment keeps the queue in order and true to the stream, and adds exactly the
      segment's positions to those it covers. */
  lemma InsertFacts(lo: int, segs: seq<Held>, sg: Held, stream: seq<byte>)
    requires Sorted(lo, segs) && lo <= sg.pos
    ensures Sorted(lo, Insert(segs, sg))
    ensures AllAgree(segs, stream) && (sg.data != [] ==> Agrees(sg, stream)) ==> AllAgree(Insert(segs, sg), stream)
    ensures forall p :: Covers(Insert(segs, sg), p) <==> Covers(segs, p) || Within(sg, p)
  {
    hide TrimAfter, Covers, Agrees;
    var i := Split(segs, sg.pos);
    var k := Overlap(segs, i, sg);
    SplitSorted(lo, segs, i);
    if k > 0 && k >= |sg.data| {
      forall p | Within(sg, p)
        ensures Covers(segs, p)
      {
        WithinCovers(segs, i - 1, p);
      }
    } else {
      var h := if k > 0 then Cut(sg, k) else sg;
      EndsBefore(lo, segs, i, sg);
      if k > 0 {
        CutFacts(sg, k, stream);
      }
      TrimAfterFacts(if i == 0 then lo else segs[i - 1].End(), h.End(), segs[i..], stream);
      var t := TrimAfter(h.End(), segs[i..]);
      SortedThree(lo, segs[..i], h, t);
      if AllAgree(segs, stream) && (sg.data != [] ==> Agrees(sg, stream)) {
        AgreeThree(segs[..i], h, t, stream);
      }
      forall p
        ensures Covers(Insert(segs, sg), p) <==> Covers(segs, p) || Within(sg, p)
      {
        InsertCovers(lo, segs, sg, i, k, h, t, p);
      }
    }
  }

  lemma WithinCovers(segs: seq<Held>, i: nat, p: int)
    requires i < |segs| && Within(segs[i], p)
    ensures Covers(segs, p)
  {
  }

  lemma InsertCovers(lo: int, segs: seq<Held>, sg: Held, i: nat, k: int, h: Held, t: seq<Held>, p: int)
    requires Sorted(lo, segs) && i == Split(segs, sg.pos) && k == Overlap(segs, i, sg)
    requires !(k > 0 && k >= |sg.data|) && h == (if k > 0 then Cut(sg, k) else sg)
    requires Covers(t, p) <==> Covers(segs[i..], p) && p >= h.End()
    ensures Covers(segs[..i] + [h] + t, p) <==> Covers(segs, p) || Within(sg, p)
  {
    BehindCovered(segs, sg, i, k, h, p);
    AheadLater(lo, segs, sg, i, k, h, p);
    if k > 0 {
      CutFacts(sg, k, []);
    }
    hide Covers, Sorted, Split, Overlap;
    assert segs == segs[..i] + segs[i..];
    CoversAppend(segs[..i], segs[i..], p);
    CoversAppend(segs[..i] + [h], t, p);
    CoversAppend(segs[..i], [h], p);
    CoversCons(h, [], p);
    assert [h] + [] == [h];
    assert !Covers([], p) by { NoneCovers(p); }
  }

  lemma NoneCovers(p: int)
    ensures !Covers([], p)
  {
  }

  lemma BehindCovered(segs: seq<Held>, sg: Held, i: nat, k: int, h: Held, p: int)
    requires i == Split(segs, sg.pos) && k == Overlap(segs, i, sg)
    requires !(k > 0 && k >= |sg.data|) && h == (if k > 0 then Cut(sg, k) else sg)
    ensures Within(sg, p) && !Within(h, p) ==> Covers(segs[..i], p)
  {
    if Within(sg, p) && !Within(h, p) {
      assert Within(segs[..i][i - 1], p);
    }
  }

  lemma AheadLater(lo: int, segs: seq<Held>, sg: Held, i: nat, k: int, h: Held, p: int)
    requires Sorted(lo, segs) && i == Split(segs, sg.pos) && k == Overlap(segs, i, sg)
    requires !(k > 0 && k >= |sg.data|) && h == (if k > 0 then Cut(sg, k) else sg)
    ensures Covers(segs[i..], p) ==> p >= h.pos
  {
    if Covers(segs[i..], p) {
      var j :| 0 <= j < |segs[i..]| && Within(segs[i..][j], p);
      assert segs[i..][j] == segs[i + j];
      assert j > 0 ==> segs[i].End() <= segs[i + j].pos;
    }
  }

  // ----- presenting

  function Flatten(msgs: seq<seq<byte>>): seq<byte> {
    if msgs == [] then [] else msgs[0] + Flatten(msgs[1..])
  }

  lemma {:induction false} FlattenAppend(x: seq<seq<byte>>, y: seq<seq<byte>>)
    ensures Flatten(x + y) == Flatten(x) + Flatten(y)
  {
    if x == [] {
      assert x + y == y;
    } else {
      FlattenAppend(x[1..], y);
      assert (x + y)[1..] == x[1..] + y;
    }
  }

  /** Presenting hands over the stream from `nxt` up to the first position not received, and leaves
      the rest of the queue as it was. */
  lemma {:induction false} DrainFacts(nxt: int, segs: seq<Held>, stream: seq<byte>)
    requires 0 <= nxt <= |stream| && Sorted(nxt, segs) && AllAgree(segs, stream)
    ensures var d := Drain(nxt, segs);
            nxt <= d.nxt <= |stream| && Flatten(d.msgs) == stream[nxt..d.nxt]
            && Sorted(d.nxt, d.rest) && AllAgree(d.rest, stream)
    ensures forall p :: nxt <= p < Drain(nxt, segs).nxt ==> Covers(segs, p)
    ensures !Covers(segs, Drain(nxt, segs).nxt)
    ensures forall p :: Covers(Drain(nxt, segs).rest, p) <==> Covers(segs, p) && p >= Drain(nxt, segs).nxt
    decreases |segs|
  {
    if segs == [] || segs[0].pos != nxt {
      NotYet(nxt, segs);
    } else {
      hide Covers, Within;
      var h, rest := segs[0], segs[1..];
      assert segs == [h] + rest;
      SortedTail(nxt, segs);
      assert h.data != [] ==> Agrees(h, stream);
      assert AllAgree(rest, stream);
      DrainFacts(h.End(), rest, stream);
      var d := Drain(h.End(), rest);
      assert stream[nxt..d.nxt] == stream[nxt..h.End()] + stream[h.End()..d.nxt];
      forall p
        ensures Covers(segs, p) <==> Within(h, p) || Covers(rest, p)
      {
        CoversCons(h, rest, p);
      }
    }
  }

  lemma NotYet(nxt: int, segs: seq<Held>)
    requires Sorted(nxt, segs) && (segs == [] || segs[0].pos != nxt)
    ensures !Covers(segs, nxt)
    ensures forall p :: Covers(segs, p) ==> p >= nxt
  {
    forall p | Covers(segs, p)
      ensures p > nxt
    {
      var i :| 0 <= i < |segs| && Within(segs[i], p);
      assert i > 0 ==> segs[0].End() <= segs[i].pos;
    }
  }
}
