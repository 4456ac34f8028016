/** What has been counted against what has been sent: a receiver is never ahead of `snd_max`, but for a FIN that
    its sender has put on a probe and not counted. */
module TcpSent {
  import opened Bytes
  import opened TcpSeq
  import opened TcpReass
  import opened TcpTcb
  import opened TcpOutput
  import opened TcpInput
  import opened TcpFin

  // ----- a FIN on a probe

  /** The acknowledgment of a segment with FIN is refused, as one of something never sent, exactly when the segment
      is a probe and no FIN has been counted as sent. */
  lemma StrayFinRefused(e: Endpoint, p: Plan, win: nat, len: nat)
    requires Sound(e) && Ready(e, p) && p.fin
    ensures var q := PacketOf(e, p);
            AckOf(After(e, p), q.pos + p.len + 1, win, len).DropAfterAck? <==> !Transmits(e) && !e.snd.sentfin
  {
    FinBeyondMax(e, p);
    SentCounts(e, p);
    AfterSound(e, p);
  }

  /** One byte and a close, and the window shut: the state in which the persist timer forces a byte out. */
  function Closing(x: byte, wnd: nat): Endpoint {
    Endpoint(FIN_WAIT_1, Cfg(0, 0, 512, 4096, false, false), [x], Snd(0, 0, 0, false, wnd, 512, 65535, 0, 0, 0, 0),
             Ctl(true, true, false, false, false), Rcv(0, [], [], []), 0)
  }

  /** The byte goes out with FIN; `snd_max` counts the byte only; and when the peer has counted both, what he says
      is refused. */
  lemma StrayFinWitness(x: byte)
    ensures var e := Closing(x, 0); var f := After(e, Plan(0, 1, true, false));
            Sound(e)
            && Outputs(e, Idle(e), f.(ctl := Ctl(false, true, false, false, false)), [Packet(0, [x], true, 0, 4096)])
            && f.snd.max == 1 && AckOf(f, 2, 4096, 0).DropAfterAck?
  {
    var e := Closing(x, 0);
    assert Unacked(e.written, 0) == [x];
    assert Flatten([]) == [];
    assert Begun(e) == e;
    assert PlanOf(e) == Plan(0, 1, true, false);
    assert PacketOf(e, PlanOf(e)) == Packet(0, [x], true, 0, 4096);
  }

  // ----- how far a receiver can have got

  /** The positions that a queued segment takes end there. */
  function Last(h: Held): int {
    h.End() + (if h.flag then 1 else 0)
  }

  ghost predicate AllBelow(held: seq<Held>, top: int) {
    forall i :: 0 <= i < |held| ==> Last(held[i]) <= top
  }

  /** Nothing at or beyond `top` has been counted or queued. */
  ghost predicate Below(e: Endpoint, top: int) {
    e.rcv.nxt <= top && AllBelow(e.rcv.held, top)
  }

  lemma {:induction false} TrimBelow(lim: int, held: seq<Held>, top: int)
    requires AllBelow(held, top)
    ensures AllBelow(TrimAfter(lim, held), top)
    decreases |held|
  {
    if held != [] && lim > held[0].pos && lim - held[0].pos >= |held[0].data| {
      TrimBelow(lim, held[1..], top);
    }
  }

  lemma InsertBelow(held: seq<Held>, h: Held, top: int)
    requires AllBelow(held, top) && Last(h) <= top
    ensures AllBelow(Insert(held, h), top)
  {
    var i := Split(held, h.pos);
    var k := Overlap(held, i, h);
    if !(k > 0 && k >= |h.data|) {
      var h' := if k > 0 then Cut(h, k) else h;
      TrimBelow(h'.End(), held[i..], top);
    }
  }

  lemma {:induction false} DrainBelow(nxt: int, held: seq<Held>, top: int)
    requires AllBelow(held, top) && nxt <= top
    ensures var d := Drain(nxt, held);
            AllBelow(d.rest, top) && d.nxt + (if d.flag then 1 else 0) <= top
            && (d.msgs == [] ==> d.nxt == nxt)
    decreases |held|
  {
    if held != [] && held[0].pos == nxt {
      DrainBelow(held[0].End(), held[1..], top);
    }
  }

  lemma TextBelow(e: Endpoint, t: Trimmed, flagged: bool, credits: nat, top: int)
    requires Below(e, top)
    requires t.Kept? && (t.data != [] || t.fin) ==> t.pos + |t.data| + (if flagged then 1 else 0) <= top
    ensures Below(Text(e, t, flagged, credits), top)
  {
    if t.Kept? && (t.data != [] || t.fin) {
      var h := Held(t.pos, t.data, flagged);
      hide Insert, Drain, AllBelow, SendUp;
      InsertBelow(e.rcv.held, h, top);
      DrainBelow(e.rcv.nxt, Insert(e.rcv.held, h), top);
    }
  }

  /** What a segment brings lies below `top`. */
  ghost predicate Brings(p: Packet, top: int) {
    p.data != [] || p.fin ==> p.pos + |p.data| + (if p.fin then 1 else 0) <= top
  }

  lemma TrimBrings(e: Endpoint, p: Packet, top: int)
    requires Brings(p, top)
    ensures var t := Trim(e, p);
            t.Kept? && (t.data != [] || t.fin) ==> t.pos + |t.data| + (if p.fin then 1 else 0) <= top
  {
  }

  lemma BelowSame(e: Endpoint, e': Endpoint, top: int)
    requires Below(e, top) && e'.rcv.nxt == e.rcv.nxt && e'.rcv.held == e.rcv.held
    ensures Below(e', top)
  {
  }

  // ----- what a segment does to what has been received

  /** `r` is what it was, or that with the text of the segment taken in. */
  ghost predicate TakesIn(e: Endpoint, p: Packet, credits: nat, r: Rcv) {
    r == e.rcv || exists f: Endpoint :: f.rcv == e.rcv && f.cfg == e.cfg && r == Text(f, Trim(e, p), p.fin, credits).rcv
  }

  lemma OutputsRcv(e: Endpoint, m: Endpoint, pkts: seq<Packet>, y: Endpoint)
    requires Replies(e, m, pkts) && Good(e, y)
    ensures m.rcv == e.rcv
  {
    hide Outputs;
    OutputsFacts(e, Idle(e), m, pkts);
  }

  lemma AnswersRcv(a: Acked, p: Packet, t: Trimmed, credits: nat, e': Endpoint, pkts: seq<Packet>, y: Endpoint)
    requires Answers(a, p, t, credits, e', pkts) && Good(a.e, y)
    requires (a.Continue? ==> Synchronized(a.e.state)) && Fits(t, a.e.rcv.nxt, y.written)
    ensures e'.rcv == a.e.rcv
            || exists f: Endpoint :: f.rcv == a.e.rcv && f.cfg == a.e.cfg && e'.rcv == Text(f, t, p.fin, credits).rcv
  {
    hide Outputs, Good, Windowed, Text, NeedsReply, Fits;
    match a
    case DropAfterAck(f) =>
      OwesGood(f, y);
      OutputsRcv(Owes(f), e', pkts, y);
    case Resend(f, onxt) =>
      var m :| Replies(f, m, pkts) && e' == Restored(m, onxt);
      OutputsRcv(f, m, pkts, y);
    case Gone(f) =>
    case Continue(f, need) =>
      var seqno, ack := Wrap(f.cfg.rbase + (if t.Kept? then t.pos else 0)), Wrap(f.cfg.sbase + p.ack);
      var w, g := Windowed(f, seqno, ack, p.win), Received(f, p, t, credits);
      WindowedRcv(f, seqno, ack, p.win);
      assert w.rcv == f.rcv && g.rcv == Text(w, t, p.fin, credits).rcv;
      if NeedsReply(f, p, t, need, g) {
        ReceivedGood(f, p, t, credits, y);
        OutputsRcv(g, e', pkts, y);
      }
  }

  lemma WindowedRcv(e: Endpoint, seqno: u32, ack: u32, win: nat)
    ensures Windowed(e, seqno, ack, win).rcv == e.rcv && Windowed(e, seqno, ack, win).cfg == e.cfg
  {
  }

  /** Whatever else it does, taking in a segment changes what has been received by its text only. */
  lemma InputsRcv(e: Endpoint, p: Packet, credits: nat, e': Endpoint, pkts: seq<Packet>, y: Endpoint)
    requires Inputs(e, p, credits, e', pkts) && Good(e, y) && Honest(p, y) && Synchronized(e.state)
    ensures TakesIn(e, p, credits, e'.rcv)
  {
    assert e.cfg.hiwat <= REACH && p.ack <= y.rcv.nxt by { FaithfulHonest(e, p, y); }
    SoundOrder(e);
    TrimFits(e, p, y);
    OwesGood(e, y);
    hide Outputs, Fits, Sound, Faithful, Answers, AckOf, Trim, Honest, Text;
    var t := Trim(e, p);
    if t.Rejected? {
      OutputsRcv(Owes(e), e', pkts, y);
    } else {
      var f := if t.now then Owes(e) else e;
      var a := AckOf(f, p.ack, p.win, |t.data|);
      AckSound(f, p.ack, p.win, |t.data|);
      AckGood(f, a.e, p.ack, y);
      AnswersRcv(a, p, t, credits, e', pkts, y);
    }
  }

  /** Taking in a segment that brings nothing beyond `top` gets a receiver nowhere beyond `top`. */
  lemma InputsBelow(e: Endpoint, p: Packet, credits: nat, e': Endpoint, pkts: seq<Packet>, top: int, y: Endpoint)
    requires Inputs(e, p, credits, e', pkts) && Good(e, y) && Honest(p, y) && Synchronized(e.state)
    requires Below(e, top) && Brings(p, top)
    ensures Below(e', top)
  {
    InputsRcv(e, p, credits, e', pkts, y);
    TrimBrings(e, p, top);
    hide Inputs, Trim, Text;
    if e'.rcv != e.rcv {
      var f: Endpoint :| f.rcv == e.rcv && f.cfg == e.cfg && e'.rcv == Text(f, Trim(e, p), p.fin, credits).rcv;
      TextBelow(f, Trim(e, p), p.fin, credits, top);
    }
  }

  // ----- the bound

  ghost predicate AnyFin(out: seq<Packet>) {
    exists i :: 0 <= i < |out| && out[i].fin
  }

  /** How far the peer of x can get by what x has sent: `snd_max`, or past the FIN if any segment had it. */
  ghost function Top(x: Endpoint, out: seq<Packet>): int {
    if AnyFin(out) then |x.written| + 1 else x.snd.max
  }

  lemma HonestBrings(x: Endpoint, out: seq<Packet>, p: Packet)
    requires Sound(x) && AllHonest(out, x) && p in out
    ensures Honest(p, x) && Brings(p, Top(x, out))
  {
  }

  lemma TopGrows(x: Endpoint, x': Endpoint, out: seq<Packet>, pkts: seq<Packet>)
    requires AllHonest(out, x) && Onward(x, x') && Sound(x')
    ensures Top(x', out + pkts) >= Top(x, out)
  {
    if AnyFin(out) {
      var i :| 0 <= i < |out| && out[i].fin;
      assert Honest(out[i], x);
      assert (out + pkts)[i].fin;
    }
  }

  lemma BelowHigher(y: Endpoint, top: int, top': int)
    requires Below(y, top) && top <= top'
    ensures Below(y, top')
  {
  }

  // ----- the queue and the window

  /** The right edge of the receive window. */
  function WndEdge(e: Endpoint): int {
    e.rcv.nxt + RcvWnd(e)
  }

  lemma {:induction false} TrimHeldBy(lim: int, held: seq<Held>, edge: int)
    requires HeldBy(held, edge)
    ensures HeldBy(TrimAfter(lim, held), edge)
    decreases |held|
  {
    if held != [] && lim > held[0].pos && lim - held[0].pos >= |held[0].data| {
      TrimHeldBy(lim, held[1..], edge);
    }
  }

  lemma InsertHeldBy(held: seq<Held>, h: Held, edge: int)
    requires HeldBy(held, edge) && HeldBy([h], edge)
    ensures HeldBy(Insert(held, h), edge)
  {
    assert [h][0] == h;
    var i := Split(held, h.pos);
    var k := Overlap(held, i, h);
    if !(k > 0 && k >= |h.data|) {
      var h' := if k > 0 then Cut(h, k) else h;
      TrimHeldBy(h'.End(), held[i..], edge);
    }
  }

  lemma {:induction false} DrainHeldBy(nxt: int, held: seq<Held>, edge: int)
    requires HeldBy(held, edge)
    ensures HeldBy(Drain(nxt, held).rest, edge)
    decreases |held|
  {
    if held != [] && held[0].pos == nxt {
      DrainHeldBy(held[0].End(), held[1..], edge);
    }
  }

  lemma TextHeldBy(e: Endpoint, t: Trimmed, flagged: bool, credits: nat, edge: int)
    requires HeldBy(e.rcv.held, edge)
    requires t.Kept? && (t.data != [] || t.fin) ==> HeldBy([Held(t.pos, t.data, flagged)], edge)
    ensures HeldBy(Text(e, t, flagged, credits).rcv.held, edge)
  {
    if t.Kept? && (t.data != [] || t.fin) {
      var h := Held(t.pos, t.data, flagged);
      hide Insert, Drain, HeldBy, SendUp;
      InsertHeldBy(e.rcv.held, h, edge);
      DrainHeldBy(e.rcv.nxt, Insert(e.rcv.held, h), edge);
    }
  }

  lemma TrimHeldIn(e: Endpoint, p: Packet)
    ensures var t := Trim(e, p);
            t.Kept? && (t.data != [] || t.fin) ==> HeldBy([Held(t.pos, t.data, p.fin)], WndEdge(e))
  {
    hide Room;
  }

  /** What is queued of a segment ends within the window that it was trimmed to. */
  lemma InputsHeldBy(e: Endpoint, p: Packet, credits: nat, e': Endpoint, pkts: seq<Packet>, y: Endpoint)
    requires Inputs(e, p, credits, e', pkts) && Good(e, y) && Honest(p, y) && Synchronized(e.state)
    requires HeldBy(e.rcv.held, WndEdge(e))
    ensures HeldBy(e'.rcv.held, WndEdge(e))
  {
    InputsRcv(e, p, credits, e', pkts, y);
    TrimHeldIn(e, p);
    hide Inputs, Trim, Text, HeldBy, WndEdge;
    if e'.rcv != e.rcv {
      var f: Endpoint :| f.rcv == e.rcv && f.cfg == e.cfg && e'.rcv == Text(f, Trim(e, p), p.fin, credits).rcv;
      TextHeldBy(f, Trim(e, p), p.fin, credits, WndEdge(e));
    }
  }

  /** The right edge of the window never moves left. */
  lemma WndEdgeGrows(e: Endpoint, e': Endpoint, y: Endpoint, y': Endpoint)
    requires Good(e, y) && Good(e', y') && Onward(e, e')
    ensures WndEdge(e) <= WndEdge(e')
  {
    WndEdgeIs(e, y);
    WndEdgeIs(e', y');
  }

  lemma WndEdgeIs(e: Endpoint, y: Endpoint)
    requires Good(e, y)
    ensures WndEdge(e) == Max(Max(e.cfg.hiwat + |e.rcv.up| + (if FinRcvd(e.state) then 1 else 0), e.rcv.nxt), e.adv)
  {
    hide Flatten, AllAgree, Sorted, Reaches, Settled, Sound;
    assert |e.rcv.up + Flatten(e.rcv.iq)| == |y.written[..ByteCount(e)]|;
  }
}
