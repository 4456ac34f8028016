/** What `yhtp_uinput` is sure to take in of a segment, to acknowledge and to answer. */
module TcpTaken {
  import opened Bytes
  import opened TcpSeq
  import opened TcpReass
  import opened TcpTcb
  import opened TcpOutput
  import opened TcpInput
  import opened TcpFin
  import opened TcpSend

  // ----- the way of a segment through the routine

  lemma {:induction false} OutputsKeep(e: Endpoint, idle: bool, e': Endpoint, pkts: seq<Packet>)
    requires Outputs(e, idle, e', pkts)
    ensures e'.state == e.state && e'.rcv == e.rcv && e'.cfg == e.cfg && e'.written == e.written
    ensures e'.snd.una == e.snd.una && e'.snd.wnd == e.snd.wnd && e'.snd.cwnd == e.snd.cwnd
    decreases |pkts|
  {
    hide Due, PacketOf, PlanOf;
    if Due(Begun(e), PlanOf(e), idle) && PlanOf(e).more {
      OutputsKeep(After(Begun(e), PlanOf(e)), idle, e', pkts[1..]);
    }
  }

  /** What the text of p, trimmed, does to an endpoint, as far as receiving goes. */
  ghost predicate Merges(g: Endpoint, e: Endpoint, p: Packet, credits: nat, e': Endpoint) {
    var u := Text(g, Trim(e, p), p.fin, credits);
    g.rcv == e.rcv && g.cfg == e.cfg && !FinRcvd(g.state) && Synchronized(g.state)
    && e'.rcv == u.rcv && e'.state == u.state
  }

  /** The acknowledgment is one that may be: nothing that was never sent. */
  lemma AckParts(e: Endpoint, ack: int, win: nat, len: nat)
    requires Synchronized(e.state) && !FinRcvd(e.state) && ack <= e.snd.max
    ensures var a := AckOf(e, ack, win, len);
            a.e.rcv == e.rcv && a.e.cfg == e.cfg && !FinRcvd(a.e.state) && Synchronized(a.e.state)
            && (a.Continue? || (a.Resend? && len == 0))
    ensures AckOf(e, ack, win, len).e.snd.una == Max(ack, e.snd.una)
  {
    hide Opened, Shrunk, Unacked;
  }

  lemma OwesParts(e: Endpoint)
    ensures Owes(e).rcv == e.rcv && Owes(e).state == e.state && Owes(e).snd == e.snd && Owes(e).cfg == e.cfg
  {
  }

  lemma WindowedKeeps(e: Endpoint, seqno: u32, ack: u32, win: nat)
    ensures var w := Windowed(e, seqno, ack, win);
            w.rcv == e.rcv && w.cfg == e.cfg && w.state == e.state && w.ctl == e.ctl && w.snd.una == e.snd.una
  {
  }

  lemma TextKeeps(e: Endpoint, t: Trimmed, flagged: bool, credits: nat)
    ensures Text(e, t, flagged, credits).snd == e.snd
  {
    hide Reassembled;
  }

  lemma ContinueMerges(f: Endpoint, need: bool, e: Endpoint, p: Packet, credits: nat, e': Endpoint,
                       pkts: seq<Packet>)
    requires Answers(Continue(f, need), p, Trim(e, p), credits, e', pkts)
    requires f.rcv == e.rcv && f.cfg == e.cfg && !FinRcvd(f.state) && Synchronized(f.state)
    ensures (exists g :: Merges(g, e, p, credits, e')) && e'.snd.una == f.snd.una
  {
    hide Text, Trim, Windowed, NeedsReply, Outputs, FinRcvd;
    var t := Trim(e, p);
    var seqno, ack := Wrap(f.cfg.rbase + (if t.Kept? then t.pos else 0)), Wrap(f.cfg.sbase + p.ack);
    var w, g := Windowed(f, seqno, ack, p.win), Received(f, p, t, credits);
    WindowedKeeps(f, seqno, ack, p.win);
    TextKeeps(w, t, p.fin, credits);
    if NeedsReply(f, p, t, need, g) {
      OutputsKeep(g, Idle(g), e', pkts);
    }
    assert Merges(w, e, p, credits, e');
  }

  /** Text that trimming leaves is merged; when it leaves none, nothing is received but perhaps a FIN.  What the
      segment acknowledges is acknowledged, unless trimming rejects it. */
  lemma Taking(e: Endpoint, p: Packet, credits: nat, e': Endpoint, pkts: seq<Packet>)
    requires Inputs(e, p, credits, e', pkts) && Synchronized(e.state) && !FinRcvd(e.state) && p.ack <= e.snd.max
    ensures var t := Trim(e, p);
            (exists g :: Merges(g, e, p, credits, e'))
            || ((t.Rejected? || t.data == []) && e'.rcv == e.rcv && !FinRcvd(e'.state))
    ensures !Trim(e, p).Rejected? ==> e'.snd.una == Max(p.ack, e.snd.una)
  {
    hide Text, Trim, AckOf, Received, NeedsReply, Outputs, FinRcvd, Synchronized;
    OwesParts(e);
    var t := Trim(e, p);
    if t.Rejected? {
      OutputsKeep(Owes(e), Idle(Owes(e)), e', pkts);
    } else {
      var f := if t.now then Owes(e) else e;
      AckParts(f, p.ack, p.win, |t.data|);
      match AckOf(f, p.ack, p.win, |t.data|)
      case Continue(c, need) => ContinueMerges(c, need, e, p, credits, e', pkts);
      case Resend(c, onxt) =>
        var m :| Replies(c, m, pkts) && e' == Restored(m, onxt);
        OutputsKeep(c, Idle(c), m, pkts);
    }
  }

  // ----- positions

  /** Position k of the peer's stream is a byte that has been received; a FIN that has been counted is none. */
  ghost predicate Has(e: Endpoint, k: int) {
    k < ByteCount(e) || Covers(e.rcv.held, k)
  }

  /** The right edge of the window: as far as there is room, and never before what has been advertised. */
  function WindowEnd(e: Endpoint): int {
    Max(e.rcv.nxt + Max(e.cfg.hiwat - |Flatten(e.rcv.iq)|, 0), e.adv)
  }

  /** p brings the byte at position k, and the window has room for it. */
  predicate Brings(e: Endpoint, p: Packet, k: int) {
    p.pos <= k < p.pos + |p.data| && k < WindowEnd(e)
  }

  predicate Left(t: Trimmed, k: int) {
    t.Kept? && t.pos <= k < t.pos + |t.data|
  }

  /** The bytes that trimming leaves, apart from those received before. */
  lemma TrimRange(e: Endpoint, p: Packet, k: int)
    ensures Left(Trim(e, p), k) || k < e.rcv.nxt <==> Brings(e, p, k) || k < e.rcv.nxt
  {
  }

  lemma MergeTakes(r: Rcv, h: Held, credits: nat, stream: seq<byte>, k: int)
    requires Sorted(r.nxt, r.held) && r.nxt <= h.pos && 0 <= r.nxt <= |stream| && AllAgree(r.held, stream)
    requires h.data != [] ==> Agrees(h, stream)
    ensures var x := Reassembled(r, h, credits).0;
            (k < x.nxt || Covers(x.held, k) <==> k < r.nxt || Covers(r.held, k) || Within(h, k))
            && !Covers(x.held, x.nxt)
  {
    InsertFacts(r.nxt, r.held, h, stream);
    DrainFacts(r.nxt, Insert(r.held, h), stream);
    hide Covers, Insert, Drain, SendUp, Within;
  }

  lemma TextRcv(g: Endpoint, t: Trimmed, flagged: bool, credits: nat)
    requires !FinRcvd(g.state) && Synchronized(g.state)
    ensures var u := Text(g, t, flagged, credits);
            if t.Kept? && (t.data != [] || t.fin) then
              var x := Reassembled(g.rcv, Held(t.pos, t.data, flagged), credits).0;
              ByteCount(u) == x.nxt && u.rcv.held == x.held
            else u.rcv == g.rcv && u.state == g.state
  {
    hide Reassembled;
  }

  lemma TextTakes(g: Endpoint, t: Trimmed, flagged: bool, credits: nat, stream: seq<byte>, k: int)
    requires !FinRcvd(g.state) && Synchronized(g.state) && Faithful(g, stream) && Fits(t, g.rcv.nxt, stream)
    ensures var u := Text(g, t, flagged, credits);
            (Has(u, k) <==> Has(g, k) || Left(t, k)) && !Has(u, ByteCount(u))
  {
    hide Covers, Reassembled, Flatten, Sorted, Reaches, AllAgree, Text;
    TextRcv(g, t, flagged, credits);
    if t.Kept? && (t.data != [] || t.fin) {
      MergeTakes(g.rcv, Held(t.pos, t.data, flagged), credits, stream, k);
    } else {
      NothingNext(g, stream);
    }
  }

  lemma NothingNext(g: Endpoint, stream: seq<byte>)
    requires !FinRcvd(g.state) && Faithful(g, stream)
    ensures !Has(g, ByteCount(g))
  {
    hide Flatten;
    NotYet(g.rcv.nxt, g.rcv.held);
  }

  // ----- what is received

  lemma Arriving(e: Endpoint, p: Packet, y: Endpoint)
    requires Good(e, y) && Honest(p, y)
    ensures Fits(Trim(e, p), e.rcv.nxt, y.written)
  {
    hide Flatten, Sorted, Reaches, AllAgree, Trim, Honest, Fits;
    FaithfulHonest(e, p, y);
    SoundAdv(e);
    TrimFits(e, p, y);
  }

  lemma TakesAt(e: Endpoint, p: Packet, credits: nat, e': Endpoint, pkts: seq<Packet>, y: Endpoint, k: int)
    requires Inputs(e, p, credits, e', pkts) && Good(e, y) && Honest(p, y)
    requires Synchronized(e.state) && !FinRcvd(e.state) && p.ack <= e.snd.max
    ensures (Has(e', k) <==> Has(e, k) || Brings(e, p, k)) && !Has(e', ByteCount(e'))
  {
    hide Inputs, Trim, Text, Honest, WindowEnd, Synchronized, Covers, Faithful, Fits, Brings, Left;
    var t := Trim(e, p);
    Taking(e, p, credits, e', pkts);
    Arriving(e, p, y);
    TrimRange(e, p, k);
    if g :| Merges(g, e, p, credits, e') {
      SameFaithful(e, g, y.written);
      TextTakes(g, t, p.fin, credits, y.written, k);
    } else {
      NoneLeft(t, k);
      NothingNext(e, y.written);
    }
  }

  lemma NoneLeft(t: Trimmed, k: int)
    ensures t.Rejected? || t.data == [] ==> !Left(t, k)
  {
  }

  lemma SameFaithful(e: Endpoint, g: Endpoint, stream: seq<byte>)
    requires Faithful(e, stream) && g.rcv == e.rcv && g.cfg == e.cfg && !FinRcvd(e.state) && !FinRcvd(g.state)
    ensures Faithful(g, stream)
  {
    hide Flatten, Sorted, Reaches, AllAgree, Settled;
  }

  /** Exactly what had been received and what the segment brings into the window, in order or not, has been received
      afterwards; and everything up to the first byte that has not is counted.  A FIN is counted only when there is
      one, in the segment or in the queue. */
  lemma TakesIn(e: Endpoint, p: Packet, credits: nat, e': Endpoint, pkts: seq<Packet>, y: Endpoint)
    requires Inputs(e, p, credits, e', pkts) && Good(e, y) && Honest(p, y)
    requires Synchronized(e.state) && !FinRcvd(e.state) && p.ack <= e.snd.max
    ensures forall k :: Has(e', k) <==> Has(e, k) || Brings(e, p, k)
    ensures !Has(e', ByteCount(e'))
    ensures !p.fin && NoFins(e.rcv.held) ==> !FinRcvd(e'.state)
  {
    hide Inputs, Good, Honest, FinRcvd, Synchronized, Has, Brings, ByteCount;
    TakesAt(e, p, credits, e', pkts, y, 0);
    forall k
      ensures Has(e', k) <==> Has(e, k) || Brings(e, p, k)
    {
      TakesAt(e, p, credits, e', pkts, y, k);
    }
    NoFinIn(e, p, credits, e', pkts);
  }

  lemma NoFinIn(e: Endpoint, p: Packet, credits: nat, e': Endpoint, pkts: seq<Packet>)
    requires Inputs(e, p, credits, e', pkts) && Synchronized(e.state) && !FinRcvd(e.state) && p.ack <= e.snd.max
    ensures !p.fin && NoFins(e.rcv.held) ==> !FinRcvd(e'.state)
  {
    hide Inputs, Trim, Text, FinRcvd, Synchronized, NoFins;
    Taking(e, p, credits, e', pkts);
    if !p.fin && NoFins(e.rcv.held) {
      if g :| Merges(g, e, p, credits, e') {
        NoFinNone(g, Trim(e, p), credits);
      }
    }
  }

  /** So a segment at `rcv_nxt` or before moves it on as far as its bytes go within the window. */
  lemma MovesOn(e: Endpoint, p: Packet, credits: nat, e': Endpoint, pkts: seq<Packet>, y: Endpoint)
    requires Inputs(e, p, credits, e', pkts) && Good(e, y) && Honest(p, y)
    requires Synchronized(e.state) && !FinRcvd(e.state) && p.ack <= e.snd.max && p.pos <= e.rcv.nxt
    ensures ByteCount(e') >= Min(p.pos + |p.data|, WindowEnd(e))
  {
    hide Inputs, Good, Honest, WindowEnd, Synchronized, Covers;
    TakesIn(e, p, credits, e', pkts, y);
    var k := ByteCount(e');
    assert !(Has(e, k) || Brings(e, p, k));
  }

  // ----- what is answered

  /** A segment that is rejected is answered at once, and so is one that acknowledges what was never sent; when text
      or a FIN is taken in, an acknowledgment goes out or is owed.  All that goes out acknowledges all that has been
      received, this segment included. */
  lemma Answered(e: Endpoint, p: Packet, credits: nat, e': Endpoint, pkts: seq<Packet>)
    requires Inputs(e, p, credits, e', pkts) && Synchronized(e.state) && !FinRcvd(e.state) && e.snd.una <= e.snd.max
    ensures Trim(e, p).Rejected? || p.ack > e.snd.max ==> pkts != []
    ensures e'.rcv != e.rcv ==> pkts != [] || e'.ctl.acknow || e'.ctl.delack
    ensures forall i :: 0 <= i < |pkts| ==> pkts[i].ack == e'.rcv.nxt
  {
    hide Text, Trim, AckOf, Received, NeedsReply, Outputs, FinRcvd, Synchronized;
    OwesParts(e);
    var t := Trim(e, p);
    if t.Rejected? {
      Replied(Owes(e), e', pkts);
    } else {
      var f := if t.now then Owes(e) else e;
      AckGoes(f, p.ack, p.win, |t.data|);
      match AckOf(f, p.ack, p.win, |t.data|)
      case Continue(c, need) => ContinueAnswered(c, need, p, t, credits, e', pkts);
      case Resend(c, onxt) =>
        var m :| Replies(c, m, pkts) && e' == Restored(m, onxt);
        Replied(c, m, pkts);
      case DropAfterAck(c) =>
        OwesParts(c);
        Replied(Owes(c), e', pkts);
      case Gone(c) =>
    }
  }

  lemma Replied(e: Endpoint, e': Endpoint, pkts: seq<Packet>)
    requires Replies(e, e', pkts)
    ensures e.ctl.acknow ==> pkts != []
    ensures e'.rcv == e.rcv && forall i :: 0 <= i < |pkts| ==> pkts[i].ack == e.rcv.nxt
    ensures pkts == [] ==> e'.ctl.delack == e.ctl.delack && e'.ctl.acknow == e.ctl.acknow
  {
    hide Outputs;
    OutputsKeep(e, Idle(e), e', pkts);
    AckSent(e, Idle(e), e', pkts);
    if pkts == [] {
      Silent(e, e', pkts);
    }
  }

  lemma Silent(e: Endpoint, e': Endpoint, pkts: seq<Packet>)
    requires Replies(e, e', pkts) && pkts == []
    ensures e'.ctl.delack == e.ctl.delack && e'.ctl.acknow == e.ctl.acknow
  {
    hide Due, PacketOf, PlanOf;
  }

  lemma AckGoes(e: Endpoint, ack: int, win: nat, len: nat)
    requires Synchronized(e.state) && !FinRcvd(e.state)
    ensures var a := AckOf(e, ack, win, len);
            a.e.rcv == e.rcv && (ack > e.snd.max && ack > e.snd.una ==> a.DropAfterAck?)
  {
    hide Opened, Shrunk, Unacked;
  }

  lemma ContinueAnswered(f: Endpoint, need: bool, p: Packet, t: Trimmed, credits: nat, e': Endpoint, pkts: seq<Packet>)
    requires Answers(Continue(f, need), p, t, credits, e', pkts)
    ensures e'.rcv != f.rcv ==> pkts != [] || e'.ctl.acknow || e'.ctl.delack
    ensures forall i :: 0 <= i < |pkts| ==> pkts[i].ack == e'.rcv.nxt
  {
    hide Text, Windowed, NeedsReply, Outputs;
    var seqno, ack := Wrap(f.cfg.rbase + (if t.Kept? then t.pos else 0)), Wrap(f.cfg.sbase + p.ack);
    var w, g := Windowed(f, seqno, ack, p.win), Received(f, p, t, credits);
    WindowedKeeps(f, seqno, ack, p.win);
    TextOwes(w, t, p.fin, credits);
    if NeedsReply(f, p, t, need, g) {
      Replied(g, e', pkts);
    }
  }

  lemma TextOwes(w: Endpoint, t: Trimmed, flagged: bool, credits: nat)
    ensures var g := Text(w, t, flagged, credits); g.rcv != w.rcv ==> g.ctl.acknow || g.ctl.delack
  {
    hide Reassembled;
  }

  // ----- the send side

  /** The send window is taken from a segment that is newer than the one it was last taken from, or as new and with a
      newer acknowledgment, or as new in both and with a wider window; unless it acknowledges less than has been. */
  lemma WindowTaken(e: Endpoint, p: Packet, credits: nat, e': Endpoint, pkts: seq<Packet>, l1: int, l2: int)
    requires Inputs(e, p, credits, e', pkts) && Synchronized(e.state) && !FinRcvd(e.state)
    requires e.snd.una <= p.ack <= e.snd.max
    requires e.snd.wl1 == Wrap(e.cfg.rbase + l1) && e.snd.wl2 == Wrap(e.cfg.sbase + l2)
    requires var t := Trim(e, p);
             t.Kept? && Near(l1, t.pos) && Near(l2, p.ack)
             && (l1 < t.pos || (l1 == t.pos && (l2 < p.ack || (l2 == p.ack == e.snd.una && p.win > e.snd.wnd))))
    ensures e'.snd.wnd == p.win
  {
    hide Text, Trim, AckOf, Received, NeedsReply, Outputs, FinRcvd, Synchronized, Wrap;
    OwesParts(e);
    var t := Trim(e, p);
    var f := if t.now then Owes(e) else e;
    GoesOn(f, p.ack, p.win, |t.data|);
    match AckOf(f, p.ack, p.win, |t.data|)
    case Continue(c, need) => Widens(c, need, p, t, credits, e', pkts, l1, l2);
    case Resend(c, onxt) =>
      var m :| Replies(c, m, pkts) && e' == Restored(m, onxt);
      OutputsKeep(c, Idle(c), m, pkts);
  }

  lemma GoesOn(e: Endpoint, ack: int, win: nat, len: nat)
    requires Synchronized(e.state) && !FinRcvd(e.state) && e.snd.una <= ack <= e.snd.max
    ensures var a := AckOf(e, ack, win, len);
            a.e.cfg == e.cfg && a.e.snd.wl1 == e.snd.wl1 && a.e.snd.wl2 == e.snd.wl2
            && (a.Continue? || (a.Resend? && win == a.e.snd.wnd)) && (ack == e.snd.una ==> a.e.snd.wnd == e.snd.wnd)
  {
    hide Opened, Shrunk, Unacked;
  }

  lemma Widens(f: Endpoint, need: bool, p: Packet, t: Trimmed, credits: nat, e': Endpoint, pkts: seq<Packet>, l1: int,
               l2: int)
    requires Answers(Continue(f, need), p, t, credits, e', pkts) && t.Kept?
    requires f.snd.wl1 == Wrap(f.cfg.rbase + l1) && f.snd.wl2 == Wrap(f.cfg.sbase + l2)
    requires Near(l1, t.pos) && Near(l2, p.ack)
    requires l1 < t.pos || (l1 == t.pos && (l2 < p.ack || (l2 == p.ack && p.win > f.snd.wnd)))
    ensures e'.snd.wnd == p.win
  {
    hide Text, NeedsReply, Outputs, Wrap;
    var seqno, ack := Wrap(f.cfg.rbase + t.pos), Wrap(f.cfg.sbase + p.ack);
    Compare(f.cfg.rbase + l1, f.cfg.rbase + t.pos);
    Compare(f.cfg.sbase + l2, f.cfg.sbase + p.ack);
    var w, g := Windowed(f, seqno, ack, p.win), Received(f, p, t, credits);
    assert w.snd.wnd == p.win;
    TextKeeps(w, t, p.fin, credits);
    if NeedsReply(f, p, t, need, g) {
      OutputsKeep(g, Idle(g), e', pkts);
    }
  }

  lemma NewerAck(e: Endpoint, ack: int, win: nat, len: nat)
    requires Synchronized(e.state) && !FinRcvd(e.state) && e.snd.una < ack <= e.snd.max
    ensures var a := AckOf(e, ack, win, len); a.Continue? && a.e.snd.cwnd == Opened(e.snd, e.cfg.maxseg)
  {
    hide Opened, Shrunk, Unacked;
  }

  /** An acknowledgment of something new opens the congestion window: by a segment while it is at the threshold or
      below, by less but by something above it, and to 65535 at the most. */
  lemma WindowOpens(e: Endpoint, p: Packet, credits: nat, e': Endpoint, pkts: seq<Packet>)
    requires Inputs(e, p, credits, e', pkts) && Synchronized(e.state) && !FinRcvd(e.state)
    requires Trim(e, p).Kept? && e.snd.una < p.ack <= e.snd.max && e.cfg.maxseg >= 1 && e.snd.cwnd <= 65535
    ensures e.snd.cwnd <= e.snd.ssthresh ==> e'.snd.cwnd == Min(e.snd.cwnd + e.cfg.maxseg, 65535)
    ensures e.snd.cwnd > e.snd.ssthresh && e.snd.cwnd >= e.cfg.maxseg ==>
              Min(e.snd.cwnd + 1, 65535) <= e'.snd.cwnd <= e.snd.cwnd + e.cfg.maxseg
  {
    hide Text, Trim, AckOf, NeedsReply, Outputs, FinRcvd, Synchronized, Wrap, NewWindow, Opened;
    OwesParts(e);
    var t := Trim(e, p);
    var f := if t.now then Owes(e) else e;
    NewerAck(f, p.ack, p.win, |t.data|);
    OpenedBy(f.snd, f.cfg.maxseg);
    var a := AckOf(f, p.ack, p.win, |t.data|);
    var seqno, ack := Wrap(a.e.cfg.rbase + t.pos), Wrap(a.e.cfg.sbase + p.ack);
    var w, g := Windowed(a.e, seqno, ack, p.win), Received(a.e, p, t, credits);
    TextKeeps(w, t, p.fin, credits);
    if NeedsReply(a.e, p, t, a.need, g) {
      OutputsKeep(g, Idle(g), e', pkts);
    }
  }

  lemma OpenedBy(s: Snd, maxseg: nat)
    requires maxseg >= 1 && s.cwnd <= 65535
    ensures s.cwnd <= s.ssthresh ==> Opened(s, maxseg) == Min(s.cwnd + maxseg, 65535)
    ensures s.cwnd > s.ssthresh && s.cwnd >= maxseg ==>
              Min(s.cwnd + 1, 65535) <= Opened(s, maxseg) <= s.cwnd + maxseg
  {
    if s.cwnd > s.ssthresh && s.cwnd >= maxseg {
      Square(maxseg, s.cwnd);
    }
  }

  lemma Square(m: int, c: int)
    requires 1 <= m <= c
    ensures m * m / c <= m
  {
    Monotone(m, c, m);
    var q := m * m / c;
    Divided(m * m, c);
    Grows(m, q, c);
  }

  /** The third duplicate acknowledgment in a row, while something is outstanding and the window is open, brings the
      first byte not acknowledged out again. */
  lemma Retransmits(e: Endpoint, p: Packet, credits: nat, e': Endpoint, pkts: seq<Packet>)
    requires Inputs(e, p, credits, e', pkts) && Sound(e) && Synchronized(e.state)
    requires p.data == [] && !p.fin && p.pos == e.rcv.nxt && p.ack == e.snd.una && p.win == e.snd.wnd > 0
    requires e.ctl.rexmt && !e.ctl.force && e.snd.dupacks == 2 && e.snd.una < e.snd.max && e.snd.una < |e.written|
    ensures pkts != [] && DataAt(pkts[0], e.(snd := e.snd.(nxt := e.snd.una)), |pkts[0].data|)
    ensures e'.snd.cwnd == e.cfg.maxseg
  {
    hide Outputs, Shrunk, Opened, Unacked, Room, DataAt, Sound;
    assert Trim(e, p) == Kept(p.pos, [], false, false) by { NothingTrimmed(e, p); }
    var f := Rewound(e, p.ack);
    RewoundSound(e);
    ThirdDuplicate(e, p.win);
    var m :| Replies(f, m, pkts) && e' == Restored(m, e.snd.nxt);
    OutputsKeep(f, Idle(f), m, pkts);
    FirstSegment(f, Idle(f), m, pkts);
    DataSame(pkts[0], f, e.(snd := e.snd.(nxt := e.snd.una)), Min(Sendable(f), f.cfg.maxseg));
  }

  lemma DataSame(q: Packet, f: Endpoint, g: Endpoint, n: int)
    requires DataAt(q, f, n) && f.snd.nxt == g.snd.nxt && f.written == g.written
    ensures DataAt(q, g, |q.data|)
  {
  }

  lemma NothingTrimmed(e: Endpoint, p: Packet)
    requires p.data == [] && !p.fin && p.pos == e.rcv.nxt
    ensures Trim(e, p) == Kept(p.pos, [], false, false)
  {
  }

  lemma ThirdDuplicate(e: Endpoint, win: nat)
    requires e.ctl.rexmt && e.snd.dupacks == 2 && win == e.snd.wnd
    ensures AckOf(e, e.snd.una, win, 0) == Resend(Rewound(e, e.snd.una), e.snd.nxt)
  {
  }

  lemma RewoundSound(e: Endpoint)
    requires Sound(e) && e.snd.una < |e.written| && e.snd.wnd > 0
    ensures var f := Rewound(e, e.snd.una);
            Sound(f) && Sendable(f) > 0 && f.written == e.written && f.snd.max == e.snd.max && f.cfg == e.cfg
            && f.ctl.force == e.ctl.force
  {
  }

  // ----- the states

  /** Where the acknowledgment of our FIN, and then the other's FIN, lead. */
  function Moves(s: nat, acked: bool, counted: bool): nat {
    var t := if !acked then s
             else if s == FIN_WAIT_1 then FIN_WAIT_2
             else if s == CLOSING then TIME_WAIT
             else if s == LAST_ACK then CLOSED
             else s;
    if !counted then t
    else if t == ESTABLISHED then CLOSE_WAIT
    else if t == FIN_WAIT_1 then CLOSING
    else if t == FIN_WAIT_2 then TIME_WAIT
    else t
  }

  /** Bytes passed up or waiting fall behind `rcv_nxt` by the FIN that has been counted. */
  predicate FinCountedIn(r: Rcv) {
    r.nxt == |r.up| + |Flatten(r.iq)| + 1
  }

  /** The state changes when our FIN is acknowledged, and when the other's is counted, and not otherwise. */
  lemma StateMoves(e: Endpoint, p: Packet, credits: nat, e': Endpoint, pkts: seq<Packet>, y: Endpoint)
    requires Inputs(e, p, credits, e', pkts) && Good(e, y) && Honest(p, y) && Synchronized(e.state)
    ensures var acked := e.snd.sentfin && e.snd.una < p.ack == e.snd.max && Trim(e, p).Kept?;
            e'.state == Moves(e.state, acked, !FinCountedIn(e.rcv) && FinCountedIn(e'.rcv))
  {
    InputsGood(e, p, credits, e', pkts, y);
    CountedWhen(e, y);
    CountedWhen(e', y);
    hide Trim, AckOf, Received, NeedsReply, Outputs, Good, Onward, SentBetween, FinCountedIn, Honest;
    OwesParts(e);
    var t := Trim(e, p);
    if t.Rejected? {
      OutputsKeep(Owes(e), Idle(Owes(e)), e', pkts);
    } else {
      var f := if t.now then Owes(e) else e;
      AckMoves(f, p.ack, p.win, |t.data|);
      match AckOf(f, p.ack, p.win, |t.data|)
      case Continue(c, need) => TextMoves(c, need, p, t, credits, e', pkts);
      case Resend(c, onxt) =>
        var m :| Replies(c, m, pkts) && e' == Restored(m, onxt);
        OutputsKeep(c, Idle(c), m, pkts);
      case DropAfterAck(c) =>
        OwesParts(c);
        OutputsKeep(Owes(c), Idle(Owes(c)), e', pkts);
      case Gone(c) =>
    }
  }

  lemma CountedWhen(e: Endpoint, y: Endpoint)
    requires Good(e, y)
    ensures FinCountedIn(e.rcv) <==> FinRcvd(e.state)
  {
    hide Sound, Flatten, Sorted, Reaches, AllAgree, Settled;
    assert |e.rcv.up + Flatten(e.rcv.iq)| == ByteCount(e);
  }

  lemma AckMoves(e: Endpoint, ack: int, win: nat, len: nat)
    requires Synchronized(e.state)
    ensures var acked := e.snd.sentfin && e.snd.una < ack == e.snd.max;
            AckOf(e, ack, win, len).e.state == Moves(e.state, acked, false)
  {
    hide Opened, Shrunk, Unacked;
  }

  lemma TextMoves(f: Endpoint, need: bool, p: Packet, t: Trimmed, credits: nat, e': Endpoint, pkts: seq<Packet>)
    requires Answers(Continue(f, need), p, t, credits, e', pkts)
    ensures e'.state == f.state || (!FinRcvd(f.state) && FinRcvd(e'.state) && e'.state == Moves(f.state, false, true))
  {
    hide NeedsReply, Outputs, Windowed, Reassembled;
    var seqno, ack := Wrap(f.cfg.rbase + (if t.Kept? then t.pos else 0)), Wrap(f.cfg.sbase + p.ack);
    var g := Received(f, p, t, credits);
    WindowedKeeps(f, seqno, ack, p.win);
    if NeedsReply(f, p, t, need, g) {
      OutputsKeep(g, Idle(g), e', pkts);
    }
  }

  // ----- the user

  lemma {:induction false} AllUp(msgs: seq<seq<byte>>, up: seq<byte>, credits: nat)
    requires |msgs| <= credits
    ensures SendUp(msgs, up, [], credits).1 == []
    decreases |msgs|
  {
    if msgs != [] {
      if msgs[0] == [] {
        AllUp(msgs[1..], up, credits);
      } else {
        AllUp(msgs[1..], up + msgs[0], credits - 1);
      }
    }
  }

  lemma {:induction false} DrainCount(nxt: int, held: seq<Held>)
    ensures |Drain(nxt, held).msgs| <= |held|
    decreases |held|
  {
    if held != [] && held[0].pos == nxt {
      DrainCount(held[0].End(), held[1..]);
    }
  }

  lemma {:induction false} TrimCount(end: int, held: seq<Held>)
    ensures |TrimAfter(end, held)| <= |held|
    decreases |held|
  {
    if held != [] && end > held[0].pos && end - held[0].pos >= |held[0].data| {
      TrimCount(end, held[1..]);
    }
  }

  lemma InsertCount(held: seq<Held>, h: Held)
    ensures |Insert(held, h)| <= |held| + 1
  {
    hide Overlap, Cut;
    var i := Split(held, h.pos);
    var k := Overlap(held, i, h);
    if !(k > 0 && k >= |h.data|) {
      TrimCount((if k > 0 then Cut(h, k) else h).End(), held[i..]);
    }
  }

  lemma TextUp(g: Endpoint, t: Trimmed, flagged: bool, credits: nat)
    requires g.rcv.iq == [] && credits > |g.rcv.held|
    ensures Text(g, t, flagged, credits).rcv.iq == []
  {
    hide Insert, Drain, SendUp;
    if t.Kept? {
      var h := Held(t.pos, t.data, flagged);
      var q := Insert(g.rcv.held, h);
      InsertCount(g.rcv.held, h);
      DrainCount(g.rcv.nxt, q);
      AllUp(Drain(g.rcv.nxt, q).msgs, g.rcv.up, credits);
    }
  }

  /** With nothing waiting and room upstream for what is queued and one message more, everything that a segment lets
      be counted goes up to the user at once. */
  lemma GoesUp(e: Endpoint, p: Packet, credits: nat, e': Endpoint, pkts: seq<Packet>, y: Endpoint)
    requires Inputs(e, p, credits, e', pkts) && Good(e, y) && Honest(p, y)
    requires Synchronized(e.state) && !FinRcvd(e.state) && p.ack <= e.snd.max
    requires e.rcv.iq == [] && credits > |e.rcv.held|
    ensures e'.rcv.iq == [] && 0 <= ByteCount(e') <= |y.written| && e'.rcv.up == y.written[..ByteCount(e')]
  {
    InputsGood(e, p, credits, e', pkts, y);
    Taking(e, p, credits, e', pkts);
    hide Inputs, Trim, Text, Honest, FinRcvd, Synchronized, Sound, Sorted, Reaches, AllAgree;
    if g :| Merges(g, e, p, credits, e') {
      TextUp(g, Trim(e, p), p.fin, credits);
    }
    assert Flatten([]) == [];
    assert e'.rcv.up + [] == e'.rcv.up;
  }

  /** What waits goes up when there is room for all of it. */
  lemma ReadAll(r: Rcv, credits: nat)
    requires credits >= |r.iq|
    ensures Dequeued(r, credits).iq == [] && Dequeued(r, credits).up == r.up + Flatten(r.iq)
  {
    assert r.iq[..|r.iq|] == r.iq;
  }
}
