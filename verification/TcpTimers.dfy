/** The retransmit and the persist timer of a control block never run together: `yhtp_setpersist`, which panics when
    it finds the retransmit timer running, never does. */
module TcpTimers {
  import opened TcpSeq
  import opened TcpReass
  import opened TcpTcb
  import opened TcpOutput
  import opened TcpInput

  predicate OneTimer(c: Ctl) {
    !(c.persist && c.rexmt)
  }

  lemma PassTimer(e: Endpoint, p: Plan)
    requires OneTimer(e.ctl)
    ensures OneTimer(Rests(Begun(e)).ctl) && OneTimer(After(Begun(e), p).ctl)
  {
    hide Advertised, Moved, SendPos, Transmits, Qsize, Wanted, SendWindow, Remembered;
  }

  /** A call of `yhtp_output` leaves one timer running at the most. */
  lemma {:induction false} OutputsTimer(e: Endpoint, idle: bool, e': Endpoint, pkts: seq<Packet>)
    requires Outputs(e, idle, e', pkts) && OneTimer(e.ctl)
    ensures OneTimer(e'.ctl)
    decreases |pkts|
  {
    hide Begun, PlanOf, Due, PacketOf, After, Rests;
    var b, p := Begun(e), PlanOf(e);
    PassTimer(e, p);
    if Due(b, p, idle) && p.more {
      OutputsTimer(After(b, p), idle, e', pkts[1..]);
    }
  }

  lemma AckTimer(e: Endpoint, ack: int, win: nat, len: nat)
    requires OneTimer(e.ctl)
    ensures OneTimer(AckOf(e, ack, win, len).e.ctl)
  {
    hide Opened, Shrunk, Unacked, Min, Max, OurFinAcked;
  }

  lemma FinTimer(e: Endpoint)
    requires OneTimer(e.ctl)
    ensures OneTimer(FinArrived(e).ctl)
  {
  }

  lemma MergedTimer(e: Endpoint, h: Held, credits: nat)
    requires OneTimer(e.ctl)
    ensures OneTimer(Merged(e, h, credits).ctl)
  {
    hide Reassembled;
  }

  lemma ReceivedTimer(e: Endpoint, p: Packet, t: Trimmed, credits: nat)
    requires OneTimer(e.ctl)
    ensures OneTimer(Received(e, p, t, credits).ctl)
  {
    hide Reassembled, NewWindow, Wrap, HaveRcvdFin, Merged, FinArrived, OneTimer;
    var f := Windowed(e, Wrap(e.cfg.rbase + (if t.Kept? then t.pos else 0)), Wrap(e.cfg.sbase + p.ack), p.win);
    if t.Kept? {
      var h := Held(t.pos, t.data, p.fin);
      MergedTimer(f, h, credits);
      FinTimer(Merged(f, h, credits));
    }
  }

  /** And so does a segment taken in. */
  lemma InputsTimer(e: Endpoint, p: Packet, credits: nat, e': Endpoint, pkts: seq<Packet>)
    requires Inputs(e, p, credits, e', pkts) && OneTimer(e.ctl)
    ensures OneTimer(e'.ctl)
  {
    hide Outputs, Trim, AckOf, Received, NeedsReply;
    var t := Trim(e, p);
    if t.Rejected? {
      OutputsTimer(Owes(e), Idle(Owes(e)), e', pkts);
    } else {
      var f := if t.now then Owes(e) else e;
      AckTimer(f, p.ack, p.win, |t.data|);
      AnswersTimer(AckOf(f, p.ack, p.win, |t.data|), p, t, credits, e', pkts);
    }
  }

  lemma AnswersTimer(a: Acked, p: Packet, t: Trimmed, credits: nat, e': Endpoint, pkts: seq<Packet>)
    requires Answers(a, p, t, credits, e', pkts) && OneTimer(a.e.ctl)
    ensures OneTimer(e'.ctl)
  {
    hide Outputs, Received, NeedsReply;
    match a
    case DropAfterAck(f) => OutputsTimer(Owes(f), Idle(Owes(f)), e', pkts);
    case Resend(f, onxt) =>
      var m :| Replies(f, m, pkts) && e' == Restored(m, onxt);
      OutputsTimer(f, Idle(f), m, pkts);
    case Gone(f) =>
    case Continue(f, need) =>
      ReceivedTimer(f, p, t, credits);
      var g := Received(f, p, t, credits);
      if NeedsReply(f, p, t, need, g) {
        OutputsTimer(g, Idle(g), e', pkts);
      }
  }
}
