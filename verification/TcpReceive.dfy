/** `yhtp_reass`, `yhsendup`, the YHTP_REASS macro and `yhtp_deqdata`, on the control block. */
module TcpReceive {
  import opened Bytes
  import opened TcpSeq
  import opened TcpReass
  import opened TcpTcb

  /** An incoming segment's position, and that it lies in reach. */
  ghost predicate Incoming(tp: Tcb, ti: Seg, pos: int)
    reads tp
  {
    ti.seqno == Wrap(tp.rbase + pos) && tp.rnxt <= pos && pos + |ti.data| <= tp.rnxt + REACH
  }

  lemma WireSplit(held: seq<Held>, base: int, i: nat)
    requires i <= |held|
    ensures WireAll(held, base)[..i] == WireAll(held[..i], base)
    ensures WireAll(held, base)[i..] == WireAll(held[i..], base)
  {
  }

  /** The loop that looks for the first queued segment beginning after this one. */
  method FindPlace(tp: Tcb, seqno: u32, ghost pos: int) returns (i: nat)
    requires tp.RcvValid() && seqno == Wrap(tp.rbase + pos) && tp.rnxt <= pos <= tp.rnxt + REACH
    ensures i == Split(tp.held, pos)
  {
    i := 0;
    while i < |tp.seg_next| && !SeqGt(tp.seg_next[i].seqno, seqno)
      invariant i <= |tp.held| && forall j :: 0 <= j < i ==> tp.held[j].pos <= pos
    {
      Compare(tp.rbase + tp.held[i].pos, tp.rbase + pos);
      i := i + 1;
    }
    if i < |tp.seg_next| {
      Compare(tp.rbase + tp.held[i].pos, tp.rbase + pos);
    }
    SplitIs(tp.held, pos, i);
  }

  /** `qprev->ti_seq + qprev->ti_len - ti->ti_seq`, as a signed number. */
  lemma OverlapWire(base: int, h: Held, pos: int)
    requires Near(h.End(), pos)
    ensures Diff(Add(Wrap(base + h.pos), |h.data|), Wrap(base + pos)) == h.End() - pos
  {
    AddWrap(base + h.pos, |h.data|);
    Compare(base + h.End(), base + pos);
  }

  lemma WireUpdate(front: seq<Held>, h: Held, h': Held, rest: seq<Held>, base: int)
    ensures WireAll(front + ([h] + rest), base)[|front| := Wire(h', base)] == WireAll(front + ([h'] + rest), base)
    ensures WireAll(front + ([h] + rest), base)[|front|] == Wire(h, base)
  {
  }

  lemma WireRemove(front: seq<Held>, h: Held, rest: seq<Held>, base: int)
    ensures var w := WireAll(front + ([h] + rest), base);
            w[..|front|] + w[|front| + 1..] == WireAll(front + rest, base)
  {
  }

  lemma WireCut(h: Held, k: nat, base: int)
    requires k <= |h.data|
    ensures Wire(Cut(h, k), base) == Seg(Add(Wrap(base + h.pos), k), h.data[k..], h.flag)
  {
    AddWrap(base + h.pos, k);
  }

  /** While the segment overlaps succeeding ones, trim or dequeue them. */
  method TrimLater(tp: Tcb, i: nat, end: u32, ghost pend: int)
    requires tp.seg_next == WireAll(tp.held, tp.rbase) && i <= |tp.held|
    requires end == Wrap(tp.rbase + pend) && forall j :: i <= j < |tp.held| ==> Near(pend, tp.held[j].pos)
    modifies tp`seg_next, tp`held
    ensures tp.held == old(tp.held[..i]) + TrimAfter(pend, old(tp.held[i..]))
    ensures tp.seg_next == WireAll(tp.held, tp.rbase)
  {
    hide TrimAfter, WireAll, Cut;
    ghost var front, later := tp.held[..i], tp.held[i..];
    ghost var base := tp.rbase;
    assert tp.held == front + later;
    while i < |tp.seg_next|
      invariant |front| == i && tp.held == front + later && tp.seg_next == WireAll(tp.held, base)
      invariant TrimAfter(pend, later) == TrimAfter(pend, old(tp.held[i..]))
      invariant forall j :: 0 <= j < |later| ==> Near(pend, later[j].pos)
      decreases |tp.seg_next|
    {
      var q := tp.seg_next[i];
      ghost var h, rest := later[0], later[1..];
      assert later == [h] + rest;
      TrimStep(pend, h, rest);
      WireUpdate(front, h, h, rest, base);
      Compare(base + pend, base + h.pos);
      var k := Diff(end, q.seqno);
      if k <= 0 {
        return;
      }
      if k < |q.data| {
        WireCut(h, k, base);
        WireUpdate(front, h, Cut(h, k), rest, base);
        tp.seg_next := tp.seg_next[i := Seg(Add(q.seqno, k), q.data[k..], q.fin)];
        tp.held := front + ([Cut(h, k)] + rest);
        return;
      }
      WireRemove(front, h, rest, base);
      assert forall j :: 0 <= j < |rest| ==> rest[j] == later[j + 1];
      tp.seg_next := tp.seg_next[..i] + tp.seg_next[i + 1..];
      later := rest;
      tp.held := front + later;
    }
    TrimStep(pend, Held(0, [], false), []);
    assert later == [];
  }

  /** What a call leaves in the receiving fields: `r` and whatever that means for the C fields. */
  twostate predicate Becomes(tp: Tcb, r: Rcv)
    reads tp
  {
    tp.Rcvd() == r && tp.rbase == old(tp.rbase)
    && tp.rcv_nxt == Wrap(tp.rbase + r.nxt) && tp.seg_next == WireAll(r.held, tp.rbase)
    && tp.t_iqsize == |Flatten(tp.t_qfirst)|
  }

  /** `yhtp_enqdata`, for data that is not urgent. */
  method Enqueue(tp: Tcb, bp: seq<byte>)
    requires tp.t_iqsize == |Flatten(tp.t_qfirst)|
    modifies tp`t_qfirst, tp`t_iqsize
    ensures tp.t_qfirst == old(tp.t_qfirst) + [bp] && tp.t_iqsize == |Flatten(tp.t_qfirst)|
  {
    FlattenAppend(tp.t_qfirst, [bp]);
    assert Flatten([bp]) == bp + Flatten([]) == bp;
    tp.t_qfirst := tp.t_qfirst + [bp];
    tp.t_iqsize := tp.t_iqsize + |bp|;
  }

  lemma EmptyIsNone(iq: seq<seq<byte>>)
    requires NoEmpty(iq)
    ensures |Flatten(iq)| == 0 <==> iq == []
  {
    assert iq != [] ==> iq[0] != [];
  }

  /** Hands one message over, upstream or to the queue.  `credits` is how many more messages the
      stream above takes before `canput` fails. */
  method HandOver(tp: Tcb, bp: seq<byte>, credits: nat) returns (left: nat)
    requires tp.t_iqsize == |Flatten(tp.t_qfirst)| && NoEmpty(tp.t_qfirst)
    modifies tp`t_qfirst, tp`t_iqsize, tp`up
    ensures tp.t_iqsize == |Flatten(tp.t_qfirst)| && NoEmpty(tp.t_qfirst)
    ensures left <= credits
    ensures bp == [] ==> left == credits && tp.up == old(tp.up) && tp.t_qfirst == old(tp.t_qfirst)
    ensures bp != [] && old(tp.t_qfirst) == [] && credits > 0
            ==> left == credits - 1 && tp.up == old(tp.up) + bp && tp.t_qfirst == old(tp.t_qfirst)
    ensures bp != [] && !(old(tp.t_qfirst) == [] && credits > 0)
            ==> left == credits && tp.up == old(tp.up) && tp.t_qfirst == old(tp.t_qfirst) + [bp]
  {
    left := credits;
    if |bp| > 0 {
      EmptyIsNone(tp.t_qfirst);
      if tp.t_iqsize == 0 && credits > 0 {
        tp.up := tp.up + bp;
        left := left - 1;
      } else {
        Enqueue(tp, bp);
      }
    }
  }

  lemma SendUpStep(m: seq<byte>, msgs: seq<seq<byte>>, up: seq<byte>, iq: seq<seq<byte>>, credits: nat)
    ensures SendUp([m] + msgs, up, iq, credits)
            == if m == [] then SendUp(msgs, up, iq, credits)
               else if iq == [] && credits > 0 then SendUp(msgs, up + m, iq, credits - 1)
               else SendUp(msgs, up, iq + [m], credits)
  {
    assert ([m] + msgs)[1..] == msgs;
  }

  /** `present:` -- the state must be past SYN_RECEIVED. */
  method Present(tp: Tcb, credits: nat) returns (fin: bool)
    requires tp.seg_next == WireAll(tp.held, tp.rbase) && tp.rcv_nxt == Wrap(tp.rbase + tp.rnxt)
    requires tp.t_iqsize == |Flatten(tp.t_qfirst)| && NoEmpty(tp.t_qfirst)
    requires Sorted(tp.rnxt, tp.held) && Reaches(tp.held, tp.rnxt)
    modifies tp`seg_next, tp`held, tp`rcv_nxt, tp`rnxt, tp`up, tp`t_qfirst, tp`t_iqsize
    ensures var d := Drain(old(tp.rnxt), old(tp.held));
            var (up, iq) := SendUp(d.msgs, old(tp.up), old(tp.t_qfirst), credits);
            Becomes(tp, Rcv(d.nxt, d.rest, up, iq)) && fin == d.flag && NoEmpty(tp.t_qfirst)
  {
    hide Sorted, Flatten, NoEmpty, Reaches, Drain, SendUp;
    ghost var d0 := Drain(tp.rnxt, tp.held);
    ghost var want := SendUp(d0.msgs, tp.up, tp.t_qfirst, credits);
    var left := credits;
    fin := false;
    NoMessageNoFin(tp.rnxt, tp.held);
    HeadNear(tp);
    while |tp.seg_next| > 0 && tp.seg_next[0].seqno == tp.rcv_nxt
      invariant tp.seg_next == WireAll(tp.held, tp.rbase) && tp.rcv_nxt == Wrap(tp.rbase + tp.rnxt)
      invariant tp.t_iqsize == |Flatten(tp.t_qfirst)| && NoEmpty(tp.t_qfirst)
      invariant Sorted(tp.rnxt, tp.held) && Reaches(tp.held, tp.rnxt)
      invariant var d := Drain(tp.rnxt, tp.held);
                d.nxt == d0.nxt && d.rest == d0.rest && SendUp(d.msgs, tp.up, tp.t_qfirst, left) == want
                && d0.flag == (if d.msgs == [] then fin else d.flag)
      invariant tp.held != [] ==> (tp.seg_next[0].seqno == tp.rcv_nxt <==> tp.held[0].pos == tp.rnxt)
      decreases |tp.seg_next|
    {
      var ti := tp.seg_next[0];
      ghost var h := tp.held[0];
      DrainStep(tp.rnxt, tp.held);
      SendUpStep(h.data, Drain(h.End(), tp.held[1..]).msgs, tp.up, tp.t_qfirst, left);
      PopFacts(tp);
      tp.rcv_nxt := Add(tp.rcv_nxt, |ti.data|);
      fin := ti.fin;
      tp.seg_next := tp.seg_next[1..];
      tp.rnxt, tp.held := h.End(), tp.held[1..];
      left := HandOver(tp, ti.data, left);
      HeadNear(tp);
    }
    SettledDrains(tp.rnxt, tp.held);
    SendUpNone(tp.up, tp.t_qfirst, left);
  }

  lemma SendUpNone(up: seq<byte>, iq: seq<seq<byte>>, credits: nat)
    ensures SendUp([], up, iq, credits) == (up, iq)
  {
  }

  lemma NoMessageNoFin(nxt: int, held: seq<Held>)
    ensures Drain(nxt, held).msgs == [] ==> !Drain(nxt, held).flag
  {
  }

  lemma HeadNear(tp: Tcb)
    requires tp.seg_next == WireAll(tp.held, tp.rbase) && tp.rcv_nxt == Wrap(tp.rbase + tp.rnxt)
    requires Sorted(tp.rnxt, tp.held) && Reaches(tp.held, tp.rnxt)
    ensures tp.held != [] ==> (tp.seg_next[0].seqno == tp.rcv_nxt <==> tp.held[0].pos == tp.rnxt)
  {
    if tp.held != [] {
      Compare(tp.rbase + tp.held[0].pos, tp.rbase + tp.rnxt);
    }
  }

  lemma DrainStep(nxt: int, held: seq<Held>)
    requires held != [] && held[0].pos == nxt
    ensures var d, e := Drain(nxt, held), Drain(held[0].End(), held[1..]);
            d.nxt == e.nxt && d.rest == e.rest && d.msgs == [held[0].data] + e.msgs
            && d.flag == (if e.msgs == [] then held[0].flag else e.flag)
  {
  }

  lemma PopFacts(tp: Tcb)
    requires tp.seg_next == WireAll(tp.held, tp.rbase) && tp.rcv_nxt == Wrap(tp.rbase + tp.rnxt)
    requires Sorted(tp.rnxt, tp.held) && Reaches(tp.held, tp.rnxt)
    requires tp.held != [] && tp.held[0].pos == tp.rnxt
    ensures var h := tp.held[0];
            tp.seg_next[0] == Wire(h, tp.rbase) && tp.seg_next[1..] == WireAll(tp.held[1..], tp.rbase)
            && Add(tp.rcv_nxt, |h.data|) == Wrap(tp.rbase + h.End())
            && Sorted(h.End(), tp.held[1..]) && Reaches(tp.held[1..], h.End())
  {
    AddWrap(tp.rbase + tp.rnxt, |tp.held[0].data|);
    SortedTail(tp.rnxt, tp.held);
    WireSplit(tp.held, tp.rbase, 1);
  }

  /** What the preceding segment leaves of the incoming one, as `Insert` has it. */
  ghost predicate Kept(held: seq<Held>, i: nat, sg: Held, dropped: bool, h: Held) {
    i == Split(held, sg.pos)
    && var k := Overlap(held, i, sg);
       if k > 0 && k >= |sg.data| then dropped
       else !dropped && h == (if k > 0 then Cut(sg, k) else sg)
  }

  lemma KeptInserts(held: seq<Held>, i: nat, sg: Held, dropped: bool, h: Held)
    requires Kept(held, i, sg, dropped, h)
    ensures Insert(held, sg) == if dropped then held else held[..i] + [h] + TrimAfter(h.End(), held[i..])
    ensures !dropped ==> sg.pos <= h.pos && h.End() == sg.End()
  {
  }

  /** The preceding segment may provide some of the data already, or all of it. */
  method TrimFront(tp: Tcb, ti0: Seg, i: nat, ghost pos: int) returns (dropped: bool, ti: Seg, ghost h: Held)
    requires tp.RcvValid() && Incoming(tp, ti0, pos) && i == Split(tp.held, pos)
    ensures Kept(tp.held, i, Held(pos, ti0.data, ti0.fin), dropped, h)
    ensures !dropped ==> ti == Wire(h, tp.rbase)
  {
    hide Split, Flatten, Sorted;
    dropped, ti, h := false, ti0, Held(pos, ti0.data, ti0.fin);
    if i > 0 {
      var prev := tp.seg_next[i - 1];
      PrevNear(tp, i, pos);
      OverlapWire(tp.rbase, tp.held[i - 1], pos);
      var k := Diff(Add(prev.seqno, |prev.data|), ti.seqno);
      if k > 0 {
        if k >= |ti.data| {
          dropped := true;
          return;
        }
        ti := Seg(Add(ti.seqno, k), ti.data[k..], ti.fin);
        AddWrap(tp.rbase + pos, k);
        h := Cut(h, k);
      }
    }
  }

  lemma PrevNear(tp: Tcb, i: nat, pos: int)
    requires Reaches(tp.held, tp.rnxt) && Sorted(tp.rnxt, tp.held) && 0 < i <= |tp.held|
    requires tp.rnxt <= pos <= tp.rnxt + REACH
    ensures Near(tp.held[i - 1].End(), pos)
  {
  }

  /** `yhtp_reass` up to `present:`: the segment queued.  `dropped` says it brought nothing. */
  method QueueSegment(tp: Tcb, ti0: Seg, ghost pos: int) returns (dropped: bool)
    requires tp.RcvValid() && Incoming(tp, ti0, pos)
    modifies tp`seg_next, tp`held
    ensures tp.held == Insert(old(tp.held), Held(pos, ti0.data, ti0.fin))
    ensures tp.seg_next == WireAll(tp.held, tp.rbase)
    ensures dropped ==> tp.held == old(tp.held)
  {
    var i := FindPlace(tp, ti0.seqno, pos);
    var ti;
    ghost var h, before := Held(pos, ti0.data, ti0.fin), tp.held;
    dropped, ti, h := TrimFront(tp, ti0, i, pos);
    KeptInserts(before, i, Held(pos, ti0.data, ti0.fin), dropped, h);
    if dropped {
      return;
    }
    hide Flatten, TrimAfter, Insert, Kept, Split, NoEmpty;
    LaterNear(tp, i, h);
    AddWrap(tp.rbase + h.pos, |h.data|);
    TrimLater(tp, i, Add(ti.seqno, |ti.data|), h.End());
    PutIn(tp.held, before[..i], TrimAfter(h.End(), before[i..]), h, tp.rbase, i);
    tp.seg_next := tp.seg_next[..i] + [ti] + tp.seg_next[i..];
    tp.held := tp.held[..i] + [h] + tp.held[i..];
  }

  lemma LaterNear(tp: Tcb, i: nat, h: Held)
    requires Reaches(tp.held, tp.rnxt) && Sorted(tp.rnxt, tp.held) && i <= |tp.held|
    requires tp.rnxt <= h.End() <= tp.rnxt + REACH
    ensures forall j :: i <= j < |tp.held| ==> Near(h.End(), tp.held[j].pos)
  {
  }

  lemma PutIn(held: seq<Held>, x: seq<Held>, y: seq<Held>, h: Held, base: int, i: nat)
    requires held == x + y && |x| == i
    ensures held[..i] == x && held[i..] == y
    ensures WireAll(held, base)[..i] + [Wire(h, base)] + WireAll(held, base)[i..] == WireAll(x + [h] + y, base)
  {
  }

  /** What queueing keeps, for the loop that presents. */
  lemma QueuedFacts(held: seq<Held>, nxt: int, h: Held)
    requires Sorted(nxt, held) && Reaches(held, nxt) && nxt <= h.pos && h.End() <= nxt + REACH
    ensures Sorted(nxt, Insert(held, h)) && Reaches(Insert(held, h), nxt)
  {
    InsertFacts(nxt, held, h, []);
    var i := Split(held, h.pos);
    var k := Overlap(held, i, h);
    if !(k > 0 && k >= |h.data|) {
      var h' := if k > 0 then Cut(h, k) else h;
      TrimReaches(h'.End(), held[i..], nxt);
    }
  }

  lemma {:induction false} TrimReaches(end: int, held: seq<Held>, nxt: int)
    requires Reaches(held, nxt)
    ensures Reaches(TrimAfter(end, held), nxt)
    decreases |held|
  {
    if held != [] && end > held[0].pos {
      if end - held[0].pos >= |held[0].data| {
        TrimReaches(end, held[1..], nxt);
      }
    }
  }

  lemma {:induction false} DrainKeeps(nxt: int, held: seq<Held>)
    requires Sorted(nxt, held) && Reaches(held, nxt)
    ensures var d := Drain(nxt, held);
            d.nxt >= nxt && Sorted(d.nxt, d.rest) && Reaches(d.rest, d.nxt) && Settled(d.nxt, d.rest)
    decreases |held|
  {
    if held != [] && held[0].pos == nxt {
      SortedTail(nxt, held);
      DrainKeeps(held[0].End(), held[1..]);
    }
  }

  /** A settled queue has nothing to present. */
  lemma SettledDrains(nxt: int, held: seq<Held>)
    requires Settled(nxt, held)
    ensures Drain(nxt, held) == Drained(nxt, [], false, held)
  {
  }

  /** `yhtp_reass` with a segment, on a connection past SYN_RECEIVED. */
  method Reass(tp: Tcb, ti: Seg, credits: nat, ghost pos: int) returns (fin: bool)
    requires tp.RcvValid() && Settled(tp.rnxt, tp.held) && Incoming(tp, ti, pos)
    modifies tp`seg_next, tp`held, tp`rcv_nxt, tp`rnxt, tp`up, tp`t_qfirst, tp`t_iqsize
    ensures tp.RcvValid() && Settled(tp.rnxt, tp.held)
    ensures (tp.Rcvd(), fin) == Reassembled(old(tp.Rcvd()), Held(pos, ti.data, ti.fin), credits)
  {
    hide Flatten, Insert, Drain, Sorted;
    ghost var h, nxt := Held(pos, ti.data, ti.fin), tp.rnxt;
    QueuedFacts(tp.held, nxt, h);
    DrainKeeps(nxt, Insert(tp.held, h));
    var dropped := QueueSegment(tp, ti, pos);
    if dropped {
      SettledDrains(nxt, tp.held);
      return false;
    }
    fin := Present(tp, credits);
  }

  // ----- the fast path

  lemma InOrder(r: Rcv, sg: Held, credits: nat)
    requires r.held == [] && sg.pos == r.nxt
    ensures Reassembled(r, sg, credits)
            == (Rcv(sg.End(), [], SendUp([sg.data], r.up, r.iq, credits).0, SendUp([sg.data], r.up, r.iq, credits).1),
                sg.flag)
  {
    assert Insert([], sg) == [sg];
    var d := Drain(r.nxt, [sg]);
    assert Drain(sg.End(), []) == Drained(sg.End(), [], false, []);
    assert [sg][1..] == [];
    assert d.msgs == [sg.data] + [];
  }

  lemma NoneHeld(tp: Tcb)
    requires tp.RcvValid()
    ensures tp.rcv_nxt == Wrap(tp.rbase + tp.rnxt) && (|tp.seg_next| == 0 <==> tp.held == [])
  {
  }

  /** The macro's path for a segment in order. */
  method Straight(tp: Tcb, data: seq<byte>, credits: nat)
    requires tp.RcvValid() && tp.held == []
    modifies tp`rcv_nxt, tp`rnxt, tp`up, tp`t_qfirst, tp`t_iqsize
    ensures tp.RcvValid() && tp.rnxt == old(tp.rnxt) + |data|
    ensures (tp.up, tp.t_qfirst) == SendUp([data], old(tp.up), old(tp.t_qfirst), credits)
  {
    AddWrap(tp.rbase + tp.rnxt, |data|);
    SendUpStep(data, [], tp.up, tp.t_qfirst, credits);
    assert [data] + [] == [data];
    hide Flatten, Wrap;
    tp.rcv_nxt := Add(tp.rcv_nxt, |data|);
    tp.rnxt := tp.rnxt + |data|;
    var left := HandOver(tp, data, credits);
  }

  /** YHTP_REASS: the macro's own path for a segment in order, and `yhtp_reass` for the others, come to
      the same thing. */
  method ReassMacro(tp: Tcb, ti: Seg, credits: nat, ghost pos: int) returns (fin: bool)
    requires tp.RcvValid() && Settled(tp.rnxt, tp.held) && Incoming(tp, ti, pos)
    modifies tp`seg_next, tp`held, tp`rcv_nxt, tp`rnxt, tp`up, tp`t_qfirst, tp`t_iqsize
    ensures tp.RcvValid() && Settled(tp.rnxt, tp.held)
    ensures (tp.Rcvd(), fin) == Reassembled(old(tp.Rcvd()), Held(pos, ti.data, ti.fin), credits)
  {
    Compare(tp.rbase + pos, tp.rbase + tp.rnxt);
    NoneHeld(tp);
    hide Flatten, Insert, Drain, Reassembled, SendUp, Wrap, Sub, tp.RcvValid;
    if ti.seqno == tp.rcv_nxt && |tp.seg_next| == 0 && tp.t_state == ESTABLISHED {
      InOrder(tp.Rcvd(), Held(pos, ti.data, ti.fin), credits);
      fin := ti.fin;
      Straight(tp, ti.data, credits);
    } else {
      fin := Reass(tp, ti, credits, pos);
    }
  }

  /** `yhtp_deqdata` for data that is not urgent. */
  method Deqdata(tp: Tcb, credits: nat)
    requires tp.RcvValid()
    modifies tp`t_qfirst, tp`t_iqsize, tp`up
    ensures tp.RcvValid()
    ensures tp.Rcvd() == Dequeued(old(tp.Rcvd()), credits)
  {
    var left := credits;
    ghost var n, q := 0, tp.t_qfirst;
    while |tp.t_qfirst| > 0 && left > 0
      invariant 0 <= n <= |q| && n + left == credits && tp.t_qfirst == q[n..]
      invariant tp.up == old(tp.up) + Flatten(q[..n])
      invariant tp.t_iqsize == |Flatten(tp.t_qfirst)| && tp.RcvValid()
      decreases left
    {
      var bp := tp.t_qfirst[0];
      FlattenAppend(q[..n], [bp]);
      assert Flatten([bp]) == bp + Flatten([]) == bp;
      assert q[..n + 1] == q[..n] + [bp];
      tp.t_qfirst := tp.t_qfirst[1..];
      tp.t_iqsize := tp.t_iqsize - |bp|;
      tp.up := tp.up + bp;
      n, left := n + 1, left - 1;
    }
  }

  /** `yhtp_reass` once SS_CANTRCVMORE is set: the data is counted and freed. */
  function ReassembledShut(r: Rcv, sg: Held): (Rcv, bool) {
    var d := Drain(r.nxt, Insert(r.held, sg));
    (Rcv(d.nxt, d.rest, r.up, r.iq), d.flag)
  }

  /** The macro does not look at SS_CANTRCVMORE.  On a segment in order its path and the general one
      then agree exactly when the segment has no data. */
  lemma FastPathWhenShut(r: Rcv, sg: Held, credits: nat)
    requires r.held == [] && sg.pos == r.nxt
    ensures Reassembled(r, sg, credits) == ReassembledShut(r, sg) <==> sg.data == []
  {
    InOrder(r, sg, credits);
    assert [sg.data][1..] == [];
    SendUpNone(r.up, r.iq, credits);
    if sg.data != [] {
      SendUpNone(r.up + sg.data, r.iq, if credits > 0 then credits - 1 else 0);
      SendUpNone(r.up, r.iq + [sg.data], credits);
      assert |r.up + sg.data| > |r.up|;
    }
  }
}
