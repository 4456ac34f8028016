/** What is sent against what the peer has advertised.  The send window is the peer's in every run in which it is
    taken from segments that acknowledge no less than has been acknowledged, and never goes round past 0. */
module TcpWindow {
  import opened Bytes
  import opened TcpSeq
  import opened TcpTcb
  import opened TcpOutput
  import opened TcpInput
  import opened TcpFin
  import opened TcpSent
  import opened TcpRun

  /** The send window is one that a segment can advertise, and ends at or before `edge`.  The FIN, once
      acknowledged, takes nothing of it. */
  ghost predicate Obeys(e: Endpoint, edge: int) {
    e.snd.wnd <= 65535 && Min(e.snd.una, |e.written|) + e.snd.wnd <= edge
  }

  /** The segment takes no more off the queue than the window holds, and if the window is taken from it, then it
      acknowledges no less than has been acknowledged. */
  ghost predicate TameSegment(e: Endpoint, p: Packet) {
    var t := Trim(e, p);
    t.Kept? ==>
      var a := AckOf(if t.now then Owes(e) else e, p.ack, p.win, |t.data|);
      (e.snd.una < p.ack <= e.snd.max ==> Leaving(e, p.ack) <= e.snd.wnd)
      && (a.Continue? && NewWindow(a.e, Wrap(a.e.cfg.rbase + t.pos), Wrap(a.e.cfg.sbase + p.ack), p.win) ==>
            a.e.snd.una <= p.ack)
  }

  ghost predicate Tame(e: Endpoint, ev: Event) {
    ev.Arrive? ==> TameSegment(e, ev.p)
  }

  ghost predicate TameStep(s: Sys, s': Sys) {
    exists ev :: (StepOf(s, ev, s') && Tame(s.a, ev)) || StepOf(Swap(s), ev, Swap(s'))
  }

  /** A run in which a takes every window so, and begins with one that b has advertised. */
  ghost predicate TameRun(r: seq<Sys>) {
    r != [] && Starts(r[0]) && Obeys(r[0].a, Edge(r[0].b)) && forall i :: 0 <= i < |r| - 1 ==> TameStep(r[i], r[i + 1])
  }

  // ----- the window through a call of `yhtp_output`

  lemma {:induction false} OutputsWnd(e: Endpoint, idle: bool, e': Endpoint, pkts: seq<Packet>)
    requires Outputs(e, idle, e', pkts)
    ensures e'.snd.wnd == e.snd.wnd
    decreases |pkts|
  {
    hide PlanOf, Due, PacketOf;
    if Due(Begun(e), PlanOf(e), idle) && PlanOf(e).more {
      OutputsWnd(After(Begun(e), PlanOf(e)), idle, e', pkts[1..]);
    }
  }

  /** Data sent with the window obeyed ends at or before the edge; a byte that is forced out may go past it, but no
      further than one beyond `snd_una`. */
  ghost predicate Heeds(p: Packet, e: Endpoint, edge: int) {
    p.data != [] ==> p.pos + |p.data| <= edge || (e.ctl.force && p.pos + |p.data| <= e.snd.una + 1)
  }

  lemma WindowHeeded(p: Packet, e: Endpoint, e': Endpoint, edge: int)
    requires Obeys(e, edge) && InWindow(p, e) && Honest(p, e') && e'.written == e.written
    ensures Heeds(p, e, edge)
  {
  }

  lemma OutputsHeed(e: Endpoint, e': Endpoint, pkts: seq<Packet>, y: Endpoint, edge: int)
    requires Replies(e, e', pkts) && Good(e, y) && Obeys(e, edge)
    ensures Obeys(e', edge) && e'.snd.una == e.snd.una && forall i :: 0 <= i < |pkts| ==> Heeds(pkts[i], e, edge)
  {
    hide Outputs, InWindow, Honest, Heeds;
    OutputsWnd(e, Idle(e), e', pkts);
    OutputsFacts(e, Idle(e), e', pkts);
    forall i | 0 <= i < |pkts|
      ensures Heeds(pkts[i], e, edge)
    {
      WindowHeeded(pkts[i], e, e', edge);
    }
  }

  // ----- through a segment

  lemma TakenObeys(e: Endpoint, ack: int, edge: int)
    requires Sound(e) && Obeys(e, edge) && e.snd.una < ack <= e.snd.max && Leaving(e, ack) <= e.snd.wnd
    ensures Obeys(Taken(e, ack), edge)
  {
    QueueEnd(e);
    assert Taken(e, ack).snd.wnd == e.snd.wnd - Leaving(e, ack);
  }

  /** What becomes of window and acknowledgment in the acknowledgment switch. */
  lemma AckObeys(e: Endpoint, ack: int, win: nat, len: nat, edge: int)
    requires Sound(e) && Synchronized(e.state) && Obeys(e, edge)
    requires e.snd.una < ack <= e.snd.max ==> Leaving(e, ack) <= e.snd.wnd
    ensures var a := AckOf(e, ack, win, len);
            Obeys(a.e, edge) && a.e.ctl.force == e.ctl.force && a.e.written == e.written
            && (a.Continue? ==> ack <= a.e.snd.una)
  {
    if e.snd.una < ack <= e.snd.max {
      TakenObeys(e, ack, edge);
      hide Obeys, Leaving;
      NewStateSame(Taken(e, ack), OurFinAcked(e, ack), ack == e.snd.max, edge);
    }
  }

  lemma NewStateSame(e: Endpoint, fin: bool, need: bool, edge: int)
    requires Obeys(e, edge)
    ensures var a := NewState(e, fin, need);
            Obeys(a.e, edge) && a.e.ctl.force == e.ctl.force && a.e.snd == e.snd && a.e.written == e.written
  {
  }

  lemma WindowedObeys(f: Endpoint, p: Packet, seqno: u32, ack: u32, edge: int)
    requires Obeys(f, edge) && p.Edge() <= edge && p.ack <= f.snd.una && p.win <= 65535
    requires NewWindow(f, seqno, ack, p.win) ==> f.snd.una <= p.ack
    ensures var w := Windowed(f, seqno, ack, p.win);
            Obeys(w, edge) && w.ctl == f.ctl && w.snd.una == f.snd.una && w.written == f.written
  {
    hide NewWindow;
  }

  lemma ReceivedObeys(f: Endpoint, p: Packet, t: Trimmed, credits: nat, edge: int)
    requires Obeys(f, edge) && p.Edge() <= edge && t.Kept? && p.ack <= f.snd.una && p.win <= 65535
    requires NewWindow(f, Wrap(f.cfg.rbase + t.pos), Wrap(f.cfg.sbase + p.ack), p.win) ==> f.snd.una <= p.ack
    ensures var g := Received(f, p, t, credits);
            Obeys(g, edge) && g.ctl.force == f.ctl.force && g.snd.una == f.snd.una
  {
    hide NewWindow, Text, Windowed;
    var seqno, ack := Wrap(f.cfg.rbase + t.pos), Wrap(f.cfg.sbase + p.ack);
    WindowedObeys(f, p, seqno, ack, edge);
    TextSnd(Windowed(f, seqno, ack, p.win), t, p.fin, credits);
    TextSame(Windowed(f, seqno, ack, p.win), t, p.fin, credits);
  }

  lemma TextSame(e: Endpoint, t: Trimmed, flagged: bool, credits: nat)
    ensures var f := Text(e, t, flagged, credits);
            f.written == e.written && f.ctl.force == e.ctl.force
  {
    hide Reassembled;
  }

  /** What is sent heeds the edge. */
  ghost predicate AllHeed(pkts: seq<Packet>, force: bool, una: int, edge: int) {
    forall i :: 0 <= i < |pkts| && pkts[i].data != [] ==>
      var end := pkts[i].pos + |pkts[i].data|;
      end <= edge || (force && end <= una + 1)
  }

  lemma RepliesObey(e: Endpoint, e': Endpoint, pkts: seq<Packet>, y: Endpoint, edge: int)
    requires Replies(e, e', pkts) && Good(e, y) && Obeys(e, edge)
    ensures Obeys(e', edge) && AllHeed(pkts, e.ctl.force, e'.snd.una, edge)
  {
    hide Outputs, Obeys;
    OutputsHeed(e, e', pkts, y, edge);
  }

  lemma RestoredObeys(m: Endpoint, onxt: int, edge: int)
    requires Obeys(m, edge)
    ensures Obeys(Restored(m, onxt), edge) && Restored(m, onxt).snd.una == m.snd.una
  {
  }

  lemma AnswersObey(a: Acked, p: Packet, t: Trimmed, credits: nat, e': Endpoint, pkts: seq<Packet>, y: Endpoint,
                    edge: int)
    requires Answers(a, p, t, credits, e', pkts) && Good(a.e, y) && Honest(p, y)
    requires (a.Continue? ==> Synchronized(a.e.state)) && Fits(t, a.e.rcv.nxt, y.written) && t.Kept?
    requires Obeys(a.e, edge) && p.Edge() <= edge && (a.Continue? ==> p.ack <= a.e.snd.una)
    requires a.Continue? && NewWindow(a.e, Wrap(a.e.cfg.rbase + t.pos), Wrap(a.e.cfg.sbase + p.ack), p.win) ==>
               a.e.snd.una <= p.ack
    ensures Obeys(e', edge) && AllHeed(pkts, a.e.ctl.force, e'.snd.una, edge)
  {
    assert p.win <= 65535;
    hide Outputs, Good, Text, Windowed, NewWindow, NeedsReply, Fits, Received, Honest, Obeys, Restored;
    match a
    case DropAfterAck(f) =>
      OwesGood(f, y);
      OwesObeys(f, edge);
      RepliesObey(Owes(f), e', pkts, y, edge);
    case Resend(f, onxt) =>
      var m :| Replies(f, m, pkts) && e' == Restored(m, onxt);
      RepliesObey(f, m, pkts, y, edge);
      RestoredObeys(m, onxt, edge);
    case Gone(f) =>
    case Continue(f, need) =>
      ReceivedObeys(f, p, t, credits, edge);
      var g := Received(f, p, t, credits);
      if NeedsReply(f, p, t, need, g) {
        ReceivedGood(f, p, t, credits, y);
        RepliesObey(g, e', pkts, y, edge);
      }
  }

  lemma OwesObeys(e: Endpoint, edge: int)
    ensures Obeys(Owes(e), edge) <==> Obeys(e, edge)
    ensures Owes(e).ctl.force == e.ctl.force && Owes(e).written == e.written && Owes(e).snd == e.snd
  {
  }

  lemma TameIs(e: Endpoint, p: Packet)
    requires TameSegment(e, p) && Trim(e, p).Kept?
    ensures var t := Trim(e, p); var f := if t.now then Owes(e) else e;
            var a := AckOf(f, p.ack, p.win, |t.data|);
            (f.snd.una < p.ack <= f.snd.max ==> Leaving(f, p.ack) <= f.snd.wnd)
            && (a.Continue? && NewWindow(a.e, Wrap(a.e.cfg.rbase + t.pos), Wrap(a.e.cfg.sbase + p.ack), p.win) ==>
                  a.e.snd.una <= p.ack)
  {
    hide Trim, AckOf, NewWindow;
  }

  lemma ArriveFacts(e: Endpoint, p: Packet, y: Endpoint)
    requires Good(e, y) && Honest(p, y)
    ensures p.ack <= y.rcv.nxt && Sound(e) && Good(Owes(e), y) && Sound(Owes(e))
    ensures Fits(Trim(e, p), e.rcv.nxt, y.written) && Owes(e).rcv == e.rcv && Owes(e).state == e.state
  {
    assert e.cfg.hiwat <= REACH && p.ack <= y.rcv.nxt by { FaithfulHonest(e, p, y); }
    SoundOrder(e);
    hide Trim, Fits, Faithful;
    TrimFits(e, p, y);
    OwesGood(e, y);
  }

  /** Taking in a tame segment keeps the window within the edge, and what is sent in reply heeds it. */
  lemma InputsObey(e: Endpoint, p: Packet, credits: nat, e': Endpoint, pkts: seq<Packet>, y: Endpoint, edge: int)
    requires Inputs(e, p, credits, e', pkts) && Good(e, y) && Honest(p, y) && Synchronized(e.state)
    requires TameSegment(e, p) && Obeys(e, edge) && p.Edge() <= edge
    ensures Obeys(e', edge) && AllHeed(pkts, e.ctl.force, e'.snd.una, edge)
  {
    hide Outputs, Fits, Good, Sound, Faithful, Answers, AckOf, Trim, Honest, Obeys, TameSegment, Leaving, NewWindow;
    ArriveFacts(e, p, y);
    OwesObeys(e, edge);
    var t := Trim(e, p);
    if t.Rejected? {
      RepliesObey(Owes(e), e', pkts, y, edge);
    } else {
      TameIs(e, p);
      var f := if t.now then Owes(e) else e;
      var a := AckOf(f, p.ack, p.win, |t.data|);
      AckSound(f, p.ack, p.win, |t.data|);
      AckObeys(f, p.ack, p.win, |t.data|, edge);
      AckGood(f, a.e, p.ack, y);
      AnswersObey(a, p, t, credits, e', pkts, y, edge);
    }
  }

  // ----- in every run

  lemma DoesObey(e: Endpoint, inbox: seq<Packet>, ev: Event, e': Endpoint, pkts: seq<Packet>, y: Endpoint, edge: int)
    requires Does(e, inbox, ev, e', pkts) && Good(e, y) && AllHonest(inbox, y) && Tame(e, ev) && Obeys(e, edge)
    requires forall i :: 0 <= i < |inbox| ==> inbox[i].Edge() <= edge
    ensures Obeys(e', edge) && AllHeed(pkts, e.ctl.force, e'.snd.una, edge)
  {
    hide Outputs, Inputs, Honest, TameSegment;
    if ev.Call? {
      RepliesObey(e, e', pkts, y, edge);
    } else if ev.Arrive? {
      InputsObey(e, ev.p, ev.credits, e', pkts, y, edge);
    } else {
      assert Sound(e);
    }
  }

  lemma ObeysMore(e: Endpoint, edge: int, edge': int)
    requires Obeys(e, edge) && edge <= edge'
    ensures Obeys(e, edge')
  {
  }

  lemma EdgeMore(e: Endpoint, e': Endpoint)
    requires Onward(e, e')
    ensures Edge(e) <= Edge(e')
  {
  }

  lemma TameStepObeys(s: Sys, s': Sys)
    requires TcpRun.Inv(s) && TameStep(s, s') && Obeys(s.a, Edge(s.b))
    ensures Step(s, s') && Obeys(s'.a, Edge(s'.b))
  {
    hide Obeys, Does, Tame, Good, Honest, EdgesFrom, InPlace, Below, InWnd, Onward, Edge;
    var ev :| (StepOf(s, ev, s') && Tame(s.a, ev)) || StepOf(Swap(s), ev, Swap(s'));
    if StepOf(s, ev, s') && Tame(s.a, ev) {
      var pkts :| Does(s.a, s.fromB, ev, s'.a, pkts)
                  && s' == Sys(s'.a, s.b, s.fromA + pkts, s.fromB, s.cutA || Cuts(s.a, ev), s.cutB);
      DoesObey(s.a, s.fromB, ev, s'.a, pkts, s.b, Edge(s.b));
    } else {
      assert Step(s, s');
      TcpRun.StepInv(s, s');
      EdgeMore(s.b, s'.b);
      ObeysMore(s.a, Edge(s.b), Edge(s'.b));
      OtherSame(s, ev, s');
    }
  }

  lemma OtherSame(s: Sys, ev: Event, s': Sys)
    requires StepOf(Swap(s), ev, Swap(s'))
    ensures s'.a == s.a
  {
    hide Does;
  }

  lemma {:induction false} TameRunObeys(r: seq<Sys>, i: nat)
    requires TameRun(r) && i < |r|
    ensures Run(r[..i + 1]) && Obeys(r[i].a, Edge(r[i].b))
    decreases i
  {
    hide Starts, Step, TameStep, Obeys;
    if i > 0 {
      TameRunObeys(r, i - 1);
      var q := r[..i];
      RunInv(q, i - 1, i - 1);
      assert TameStep(r[i - 1], r[i - 1 + 1]);
      TameStepObeys(r[i - 1], r[i]);
      RunLonger(q, r[i]);
      assert q + [r[i]] == r[..i + 1];
    } else {
      assert r[..1] == [r[0]];
    }
  }

  lemma RunLonger(q: seq<Sys>, s: Sys)
    requires Run(q) && Step(q[|q| - 1], s)
    ensures Run(q + [s])
  {
    hide Starts, Step;
  }

  /** In every run in which a takes its window so, whatever a does next: the data that it sends ends at or before
      the right edge that b has advertised, but for a byte forced out, which is the first not acknowledged. */
  lemma DataInWindow(r: seq<Sys>, i: nat, ev: Event, a': Endpoint, pkts: seq<Packet>)
    requires TameRun(r) && i < |r| && Does(r[i].a, r[i].fromB, ev, a', pkts) && Tame(r[i].a, ev)
    ensures AllHeed(pkts, r[i].a.ctl.force, a'.snd.una, Edge(r[i].b))
  {
    TameRunObeys(r, i);
    RunInv(r[..i + 1], i, i);
    assert TcpRun.Inv(r[i]);
    hide Does, Tame, Obeys, AllHeed, Good, Honest, EdgesFrom, InPlace, Below, InWnd, TameRun;
    DoesObey(r[i].a, r[i].fromB, ev, a', pkts, r[i].b, Edge(r[i].b));
  }

  /** A window taken from a segment that acknowledges less than has been acknowledged ends beyond the edge that
      the segment advertises: with 5 bytes acknowledged, one that acknowledges none and advertises 10 leaves the
      window at 15. */
  lemma OlderWindow(x: seq<byte>)
    requires |x| == 5
    ensures var e := Endpoint(ESTABLISHED, Cfg(0, 0, 512, 4096, false, false), x,
                              Snd(5, 5, 5, false, 5, 512, 65535, 0, 0, 5, 0), Ctl(false, false, false, false, false),
                              Rcv(1, [], [0], []), 0);
            var p := Packet(1, [], false, 0, 10);
            var a := AckOf(e, 0, 10, 0);
            Sound(e) && Obeys(e, p.Edge()) && Trim(e, p) == Kept(1, [], false, false) && !TameSegment(e, p)
            && a.Continue? && !Obeys(Received(a.e, p, Trim(e, p), 0), p.Edge())
  {
    var e := Endpoint(ESTABLISHED, Cfg(0, 0, 512, 4096, false, false), x,
                      Snd(5, 5, 5, false, 5, 512, 65535, 0, 0, 5, 0), Ctl(false, false, false, false, false),
                      Rcv(1, [], [0], []), 0);
    var a := AckOf(e, 0, 10, 0);
    assert SeqLt(0, 1) by {
      assert Sub(0, 1) == M - 1;
    }
    assert NewWindow(a.e, 1, 0, 10);
  }
}
