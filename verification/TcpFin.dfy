/** Where a FIN is counted.  Trimming at the right edge of the window takes FIN out of `tiflags` only, and
    reassembly reads it from the segment again. */
module TcpFin {
  import opened Bytes
  import opened TcpSeq
  import opened TcpReass
  import opened TcpTcb
  import opened TcpReceive
  import opened TcpOutput
  import opened TcpInput

  /** Every FIN that is queued stands at the end. */
  ghost predicate FinsAt(held: seq<Held>, end: int) {
    forall i :: 0 <= i < |held| && held[i].flag ==> held[i].End() == end
  }

  lemma {:induction false} TrimFins(lim: int, held: seq<Held>, end: int)
    requires FinsAt(held, end)
    ensures FinsAt(TrimAfter(lim, held), end)
    decreases |held|
  {
    if held != [] && lim > held[0].pos && lim - held[0].pos >= |held[0].data| {
      TrimFins(lim, held[1..], end);
    }
  }

  lemma InsertFins(held: seq<Held>, h: Held, end: int)
    requires FinsAt(held, end) && (h.flag ==> h.End() == end)
    ensures FinsAt(Insert(held, h), end)
  {
    var i := Split(held, h.pos);
    var k := Overlap(held, i, h);
    if !(k > 0 && k >= |h.data|) {
      var h' := if k > 0 then Cut(h, k) else h;
      TrimFins(h'.End(), held[i..], end);
    }
  }

  lemma {:induction false} DrainFins(nxt: int, held: seq<Held>, end: int)
    requires FinsAt(held, end)
    ensures var d := Drain(nxt, held);
            FinsAt(d.rest, end) && (d.flag ==> d.nxt == end)
    decreases |held|
  {
    if held != [] && held[0].pos == nxt {
      var d := Drain(held[0].End(), held[1..]);
      DrainFins(held[0].End(), held[1..], end);
      LastMessage(held[0].End(), held[1..]);
    }
  }

  lemma LastMessage(nxt: int, held: seq<Held>)
    ensures Drain(nxt, held).msgs == [] ==> Drain(nxt, held).nxt == nxt
  {
  }

  /** A FIN segment from which trimming keeps something is kept to its end.  One that is dropped whole cuts
      nothing. */
  ghost predicate Uncut(p: Packet, e: Endpoint) {
    p.fin ==> var t := Trim(e, p); t.Kept? && (t.data != [] || t.fin) ==> t.pos + |t.data| == p.pos + |p.data|
  }

  /** A FIN is cut exactly when its segment passes the right edge with text of its own on both sides of it. */
  lemma CutsWhen(e: Endpoint, p: Packet)
    requires 0 <= RcvWnd(e)
    ensures var edge := e.rcv.nxt + RcvWnd(e);
            Uncut(p, e) <==> !(p.fin && Max(p.pos, e.rcv.nxt) < edge < p.pos + |p.data|)
  {
  }

  /** A FIN that is not cut is counted, if it is, after the last byte. */
  lemma FinInPlace(e: Endpoint, t: Trimmed, flagged: bool, credits: nat, end: int)
    requires !FinRcvd(e.state) && Synchronized(e.state) && FinsAt(e.rcv.held, end)
    requires flagged && t.Kept? && (t.data != [] || t.fin) ==> t.pos + |t.data| == end
    ensures var f := Text(e, t, flagged, credits);
            FinsAt(f.rcv.held, end) && (FinRcvd(f.state) ==> ByteCount(f) == end)
  {
    if t.Kept? && (t.data != [] || t.fin) {
      var h := Held(t.pos, t.data, flagged);
      hide Insert, Drain, FinsAt, SendUp;
      InsertFins(e.rcv.held, h, end);
      DrainFins(e.rcv.nxt, Insert(e.rcv.held, h), end);
    }
  }

  ghost predicate NoFins(held: seq<Held>) {
    forall i :: 0 <= i < |held| ==> !held[i].flag
  }

  lemma NoFinsAnywhere(held: seq<Held>, m: int, n: int)
    requires m != n
    ensures NoFins(held) <==> FinsAt(held, m) && FinsAt(held, n)
  {
  }

  /** Without a FIN in the queue or in the segment none is counted. */
  lemma NoFinNone(e: Endpoint, t: Trimmed, credits: nat)
    requires !FinRcvd(e.state) && Synchronized(e.state) && NoFins(e.rcv.held)
    ensures var f := Text(e, t, false, credits);
            !FinRcvd(f.state) && NoFins(f.rcv.held)
  {
    hide FinsAt, Text, NoFins;
    NoFinsAnywhere(e.rcv.held, 0, 1);
    FinInPlace(e, t, false, credits, 0);
    FinInPlace(e, t, false, credits, 1);
    NoFinsAnywhere(Text(e, t, false, credits).rcv.held, 0, 1);
  }

  /** Every queued segment ends at or before `edge`, and has bytes or a FIN. */
  ghost predicate HeldBy(held: seq<Held>, edge: int) {
    forall i :: 0 <= i < |held| ==> held[i].End() <= edge && (held[i].data != [] || held[i].flag)
  }

  /** What stands at `nxt` and reaches as far as all that is queued takes its place, but for FINs that stand where
      it ends. */
  lemma {:induction false} TrimCovered(end: int, nxt: int, held: seq<Held>)
    requires Sorted(nxt, held) && HeldBy(held, end)
    ensures forall i :: 0 <= i < |TrimAfter(end, held)| ==>
              TrimAfter(end, held)[i].pos == end && TrimAfter(end, held)[i].data == [] && TrimAfter(end, held)[i].flag
    decreases |held|
  {
    if held != [] && end > held[0].pos {
      TrimCovered(end, nxt, held[1..]);
    } else {
      forall i | 0 <= i < |held|
        ensures held[i].pos == end && held[i].data == [] && held[i].flag
      {
        assert i > 0 ==> held[0].End() <= held[i].pos;
      }
    }
  }

  /** FINs in a row are presented together. */
  lemma {:induction false} DrainFinsOnly(nxt: int, held: seq<Held>)
    requires forall i :: 0 <= i < |held| ==> held[i].pos == nxt && held[i].data == [] && held[i].flag
    ensures var d := Drain(nxt, held);
            d.nxt == nxt && d.rest == [] && (held != [] ==> d.flag && d.msgs != []) && (held == [] ==> d.msgs == [])
    decreases |held|
  {
    if held != [] {
      DrainFinsOnly(nxt, held[1..]);
    }
  }

  lemma SplitNone(nxt: int, held: seq<Held>)
    requires Sorted(nxt, held) && Settled(nxt, held)
    ensures Split(held, nxt) == 0
  {
  }

  lemma DrainFirst(h: Held, rest: seq<Held>)
    ensures var d, e := Drain(h.pos, [h] + rest), Drain(h.End(), rest);
            d.nxt == e.nxt && d.rest == e.rest && d.flag == (if e.msgs == [] then h.flag else e.flag)
  {
    assert ([h] + rest)[1..] == rest;
  }

  /** A FIN segment in order that reaches as far as all that is queued is counted where it ends. */
  lemma FinInOrder(r: Rcv, h: Held, credits: nat)
    requires Sorted(r.nxt, r.held) && Settled(r.nxt, r.held) && HeldBy(r.held, h.End()) && h.pos == r.nxt && h.flag
    ensures var (r', fin) := Reassembled(r, h, credits);
            fin && r'.nxt == h.End()
  {
    SplitNone(r.nxt, r.held);
    var rest := TrimAfter(h.End(), r.held);
    TrimCovered(h.End(), r.nxt, r.held);
    assert Insert(r.held, h) == [h] + rest by {
      assert r.held[0..] == r.held && r.held[..0] + [h] + rest == [h] + rest;
    }
    hide Insert, TrimAfter, SendUp;
    DrainFirst(h, rest);
    DrainFinsOnly(h.End(), rest);
  }

  /** A FIN segment in order that reaches, or would if it were not cut, as far as all that is queued.  Into a shut
      window nothing of it is taken, unless the FIN alone is new.  Otherwise its FIN is counted: at its own place
      exactly when the segment ends at or before the right edge, and else where the text was cut. */
  lemma FinCutEarly(e: Endpoint, p: Packet, credits: nat)
    requires !FinRcvd(e.state) && Synchronized(e.state)
    requires p.fin && p.pos <= e.rcv.nxt <= p.pos + |p.data|
    requires Sorted(e.rcv.nxt, e.rcv.held) && Settled(e.rcv.nxt, e.rcv.held)
    requires HeldBy(e.rcv.held, Min(p.pos + |p.data|, e.rcv.nxt + RcvWnd(e)))
    ensures var f, edge := Text(e, Trim(e, p), p.fin, credits), e.rcv.nxt + RcvWnd(e);
            if edge == e.rcv.nxt < p.pos + |p.data| then f == e
            else FinRcvd(f.state) && ByteCount(f) == Min(p.pos + |p.data|, edge)
                 && (ByteCount(f) == p.pos + |p.data| <==> p.pos + |p.data| <= edge)
  {
    var t := Trim(e, p);
    if t.Kept? && (t.data != [] || t.fin) {
      var h := Held(t.pos, t.data, p.fin);
      hide SendUp, Reassembled, HeldBy, Sorted, Settled;
      FinInOrder(e.rcv, h, credits);
    }
  }

  /** A window of 4, 6 bytes and FIN: FIN is counted after 4 bytes, and the other 2 are never taken. */
  lemma FinCutWitness(cfg: Cfg, ctl: Ctl, snd: Snd, x: seq<byte>)
    requires |x| == 6 && cfg.hiwat == 4
    ensures var e := Endpoint(ESTABLISHED, cfg, [], snd, ctl, Rcv(0, [], [], []), 0);
            var f := Text(e, Trim(e, Packet(0, x, true, 0, 0)), true, 1);
            FinRcvd(f.state) && ByteCount(f) == 4
  {
    var e := Endpoint(ESTABLISHED, cfg, [], snd, ctl, Rcv(0, [], [], []), 0);
    var p := Packet(0, x, true, 0, 0);
    assert Flatten([]) == [];
    assert Trim(e, p) == Kept(0, x[..4], false, false);
    InOrder(e.rcv, Held(0, x[..4], true), 1);
  }

  // ----- a whole segment

  /** x's FINs from y are in place: at the end of what y has written, and there are none before y is done. */
  ghost predicate InPlace(x: Endpoint, y: Endpoint) {
    FinsAt(x.rcv.held, |y.written|) && (FinRcvd(x.state) ==> ByteCount(x) == |y.written|)
    && (!Done(y) ==> !FinRcvd(x.state) && NoFins(x.rcv.held))
  }

  ghost predicate Done(e: Endpoint) {
    UserClosed(e.state) || e.state == CLOSED
  }

  lemma InPlaceSame(x: Endpoint, x': Endpoint, y: Endpoint)
    requires InPlace(x, y) && x'.rcv.nxt == x.rcv.nxt && x'.rcv.held == x.rcv.held
    requires FinRcvd(x'.state) <==> FinRcvd(x.state)
    ensures InPlace(x', y)
  {
  }

  lemma TextInPlace(e: Endpoint, p: Packet, t: Trimmed, credits: nat, y: Endpoint)
    requires InPlace(e, y) && Honest(p, y) && Synchronized(e.state)
    requires p.fin && t.Kept? && (t.data != [] || t.fin) ==> t.pos + |t.data| == p.pos + |p.data|
    ensures InPlace(Text(e, t, p.fin, credits), y)
  {
    if !FinRcvd(e.state) {
      hide Text, FinsAt, NoFins;
      FinInPlace(e, t, p.fin, credits, |y.written|);
      if !Done(y) {
        NoFinNone(e, t, credits);
      }
    }
  }

  lemma WindowedSame(e: Endpoint, seqno: u32, ack: u32, win: nat)
    ensures Windowed(e, seqno, ack, win).rcv == e.rcv && Windowed(e, seqno, ack, win).state == e.state
  {
  }

  lemma OutputsInPlace(e: Endpoint, idle: bool, m: Endpoint, pkts: seq<Packet>, y: Endpoint)
    requires Outputs(e, idle, m, pkts) && Good(e, y) && InPlace(e, y)
    ensures InPlace(m, y)
  {
    hide InPlace, Outputs;
    OutputsFacts(e, idle, m, pkts);
    InPlaceSame(e, m, y);
  }

  lemma AnswersInPlace(a: Acked, p: Packet, t: Trimmed, credits: nat, e': Endpoint, pkts: seq<Packet>, y: Endpoint)
    requires Answers(a, p, t, credits, e', pkts) && InPlace(a.e, y) && Good(a.e, y) && Honest(p, y)
    requires (a.Continue? ==> Synchronized(a.e.state)) && Fits(t, a.e.rcv.nxt, y.written)
    requires p.fin && t.Kept? && (t.data != [] || t.fin) ==> t.pos + |t.data| == p.pos + |p.data|
    ensures InPlace(e', y)
  {
    hide InPlace, Outputs, Good, Honest, Windowed, Text, NeedsReply, Fits;
    match a
    case DropAfterAck(f) =>
      OwesGood(f, y);
      InPlaceSame(f, Owes(f), y);
      OutputsInPlace(Owes(f), Idle(Owes(f)), e', pkts, y);
    case Resend(f, onxt) =>
      var m :| Replies(f, m, pkts) && e' == Restored(m, onxt);
      OutputsInPlace(f, Idle(f), m, pkts, y);
      InPlaceSame(m, e', y);
    case Gone(f) =>
    case Continue(f, need) =>
      var seqno, ack := Wrap(f.cfg.rbase + (if t.Kept? then t.pos else 0)), Wrap(f.cfg.sbase + p.ack);
      var g := Received(f, p, t, credits);
      WindowedSame(f, seqno, ack, p.win);
      InPlaceSame(f, Windowed(f, seqno, ack, p.win), y);
      TextInPlace(Windowed(f, seqno, ack, p.win), p, t, credits, y);
      if NeedsReply(f, p, t, need, g) {
        ReceivedGood(f, p, t, credits, y);
        OutputsInPlace(g, Idle(g), e', pkts, y);
      }
  }

  /** A segment whose FIN, if any, is not cut leaves the FINs in place. */
  lemma InputsInPlace(e: Endpoint, p: Packet, credits: nat, e': Endpoint, pkts: seq<Packet>, y: Endpoint)
    requires Inputs(e, p, credits, e', pkts) && Good(e, y) && Honest(p, y) && Synchronized(e.state)
    requires InPlace(e, y) && Uncut(p, e)
    ensures InPlace(e', y)
  {
    assert e.cfg.hiwat <= REACH && p.ack <= y.rcv.nxt by { FaithfulHonest(e, p, y); }
    SoundOrder(e);
    TrimFits(e, p, y);
    OwesGood(e, y);
    InPlaceSame(e, Owes(e), y);
    hide InPlace, Outputs, Fits, Sound, Faithful, Answers, AckOf, Trim, Honest, Uncut;
    var t := Trim(e, p);
    if t.Rejected? {
      OutputsInPlace(Owes(e), Idle(Owes(e)), e', pkts, y);
    } else {
      var f := if t.now then Owes(e) else e;
      var a := AckOf(f, p.ack, p.win, |t.data|);
      AckSound(f, p.ack, p.win, |t.data|);
      AckGood(f, a.e, p.ack, y);
      InPlaceSame(f, a.e, y);
      AnswersInPlace(a, p, t, credits, e', pkts, y);
    }
  }
}
