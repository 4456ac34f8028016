/** `yhtp_uinput` on the control block, step by step, each against its specification in TcpInput. */
module TcpUinput {
  import opened Bytes
  import opened TcpSeq
  import opened TcpReass
  import opened TcpChain
  import opened TcpTcb
  import opened TcpReceive
  import opened TcpOutput
  import opened TcpInput

  /** The segment p as it comes off the wire, not so old that 32 bits cannot place it. */
  ghost predicate Arrives(tp: Tcb, ti: Segment, p: Packet)
    reads tp
  {
    ti == OnWire(p, tp.rbase, tp.sbase)
    && -4 * REACH <= p.pos - tp.rnxt <= 4 * REACH && |p.data| <= REACH
    && -4 * REACH <= p.ack - tp.una <= 4 * REACH && p.win <= 65535
  }

  // ----- trimming

  method Window(tp: Tcb)
    requires tp.Valid()
    modifies tp`rcv_wnd
    ensures tp.rcv_wnd == RcvWnd(tp.Abs()) && 0 <= tp.rcv_wnd <= REACH
  {
    Extents(tp);
    hide Iqsize, Wrap, Sub;
    Compare(tp.rbase + tp.adv, tp.rbase + tp.rnxt);
    var hiwat := tp.q_hiwat;
    var win := hiwat - tp.t_iqsize;
    if win < 0 {
      win := 0;
    }
    if win > hiwat {
      win := hiwat;
    }
    tp.rcv_wnd := if win > Diff(tp.rcv_adv, tp.rcv_nxt) then win else Diff(tp.rcv_adv, tp.rcv_nxt);
  }

  /** What a trimmed segment looks like to the rest of the routine. */
  ghost predicate Shows(t: Trimmed, rejected: bool, seqno: u32, data: seq<byte>, fin: bool, now: bool, base: int) {
    if rejected then t.Rejected?
    else t.Kept? && t == Kept(t.pos, data, fin, now) && seqno == Wrap(base + t.pos)
  }

  method TrimFrom(tp: Tcb, ti: Segment, ghost p: Packet)
    returns (rejected: bool, seqno: u32, data: seq<byte>, fin: bool, now: bool)
    requires tp.rcv_nxt == Wrap(tp.rbase + tp.rnxt) && Arrives(tp, ti, p)
    ensures Shows(TrimLeft(tp.rnxt, p), rejected, seqno, data, fin, now, tp.rbase)
  {
    hide Wrap, Sub;
    Compare(tp.rbase + tp.rnxt, tp.rbase + p.pos);
    rejected, seqno, data, fin, now := false, ti.seqno, ti.data, ti.fin, false;
    var todrop := Diff(tp.rcv_nxt, ti.seqno);
    if todrop > 0 {
      if todrop > |data| || (todrop == |data| && !fin) {
        if fin && todrop == |data| + 1 {
          todrop := |data|;
          fin, now := false, true;
        } else {
          rejected := true;
          return;
        }
      }
      data := data[todrop..];
      AddWrap(tp.rbase + p.pos, todrop);
      seqno := Add(seqno, todrop);
    }
  }

  method TrimTo(tp: Tcb, seqno: u32, data0: seq<byte>, fin0: bool, now0: bool, ghost t: Trimmed)
    returns (rejected: bool, data: seq<byte>, fin: bool, now: bool)
    requires tp.rcv_nxt == Wrap(tp.rbase + tp.rnxt) && 0 <= tp.rcv_wnd <= REACH
    requires Shows(t, false, seqno, data0, fin0, now0, tp.rbase)
    requires -4 * REACH <= t.pos - tp.rnxt <= 4 * REACH && |data0| <= REACH
    ensures Shows(TrimRight(tp.rnxt, tp.rcv_wnd, t), rejected, seqno, data, fin, now, tp.rbase)
  {
    hide Wrap, Sub;
    rejected, data, fin, now := false, data0, fin0, now0;
    AddWrap(tp.rbase + t.pos, |data|);
    AddWrap(tp.rbase + tp.rnxt, tp.rcv_wnd);
    Compare(tp.rbase + t.pos + |data|, tp.rbase + tp.rnxt + tp.rcv_wnd);
    Compare(tp.rbase + t.pos, tp.rbase + tp.rnxt);
    var todrop := Diff(Add(seqno, |data|), Add(tp.rcv_nxt, tp.rcv_wnd));
    if todrop > 0 {
      if todrop >= |data| {
        if tp.rcv_wnd == 0 && seqno == tp.rcv_nxt {
          now := true;
        } else {
          rejected := true;
          return;
        }
      }
      data := data[..|data| - todrop];
      fin := false;
    }
  }

  /** Both edges. */
  method TrimSegment(tp: Tcb, ti: Segment, ghost p: Packet)
    returns (rejected: bool, seqno: u32, data: seq<byte>, fin: bool, now: bool)
    requires tp.Valid() && Arrives(tp, ti, p)
    modifies tp`rcv_wnd
    ensures tp.Valid() && tp.Abs() == old(tp.Abs())
    ensures Shows(Trim(tp.Abs(), p), rejected, seqno, data, fin, now, tp.rbase)
  {
    Extents(tp);
    hide Wrap, RcvWnd, Sound, RcvAgrees, QueueAgrees, Settled;
    Window(tp);
    rejected, seqno, data, fin, now := TrimFrom(tp, ti, p);
    if !rejected {
      ghost var t := TrimLeft(tp.rnxt, p);
      rejected, data, fin, now := TrimTo(tp, seqno, data, fin, now, t);
    }
  }

  // ----- acknowledgment

  datatype Verdict = GoOn(need: bool) | ThenAck | Retransmit(onxt: u32) | Closed

  ghost predicate Agrees(a: Acked, v: Verdict, sbase: int) {
    match a
    case Continue(_, need) => v == GoOn(need)
    case DropAfterAck(_) => v == ThenAck
    case Resend(_, onxt) => v == Retransmit(Wrap(sbase + onxt))
    case Gone(_) => v == Closed
  }

  /** Half the window in whole segments, two at the least. */
  method Threshold(tp: Tcb) returns (w: nat)
    requires tp.t_maxseg >= 1
    ensures w == Max(Min(tp.snd_wnd, tp.snd_cwnd) / 2 / Max(tp.t_maxseg, 1), 2) * tp.t_maxseg
  {
    var n := (if tp.snd_wnd < tp.snd_cwnd then tp.snd_wnd else tp.snd_cwnd) / 2 / tp.t_maxseg;
    if n < 2 {
      n := 2;
    }
    w := n * tp.t_maxseg;
  }

  method Rewind(tp: Tcb, ti_ack: u32, ghost ack: int)
    requires ti_ack == Wrap(tp.sbase + ack) && tp.t_maxseg >= 1 && tp.t_dupacks == REXMT_THRESH
    modifies tp`snd_ssthresh, tp`rexmt, tp`snd_nxt, tp`nxt, tp`snd_cwnd
    ensures tp.Abs() == Rewound(old(tp.Abs()), ack) && tp.snd_nxt == Wrap(tp.sbase + tp.nxt)
  {
    hide Wrap, Min, Max;
    tp.snd_ssthresh := Threshold(tp);
    tp.rexmt := false;
    tp.snd_nxt, tp.nxt := ti_ack, ack;
    tp.snd_cwnd := tp.t_maxseg;
  }

  lemma RewoundAgain(e: Endpoint, ack: int)
    ensures Rewound(DupAcks(e, REXMT_THRESH), ack) == Rewound(e, ack)
  {
  }

  method Duplicate(tp: Tcb, ti_ack: u32, win: nat, len: nat, ghost ack: int) returns (v: Verdict)
    requires tp.snd_una == Wrap(tp.sbase + tp.una) && tp.snd_nxt == Wrap(tp.sbase + tp.nxt) && tp.t_maxseg >= 1
    requires ti_ack == Wrap(tp.sbase + ack) && -4 * REACH <= ack - tp.una <= 0
    modifies tp`t_dupacks, tp`snd_ssthresh, tp`rexmt, tp`snd_nxt, tp`nxt, tp`snd_cwnd
    ensures var a := OldAck(old(tp.Abs()), ack, win, len);
            tp.Abs() == a.e && Agrees(a, v, tp.sbase) && tp.snd_nxt == Wrap(tp.sbase + tp.nxt)
  {
    Compare(tp.sbase + ack, tp.sbase + tp.una);
    ghost var e := tp.Abs();
    RewoundAgain(e, ack);
    hide Wrap, Sub, Rewound;
    v := GoOn(false);
    if len == 0 && win == tp.snd_wnd {
      if !tp.rexmt || ti_ack != tp.snd_una {
        tp.t_dupacks := 0;
      } else {
        tp.t_dupacks := tp.t_dupacks + 1;
        if tp.t_dupacks == REXMT_THRESH {
          v := Retransmit(tp.snd_nxt);
          assert tp.Abs() == DupAcks(e, REXMT_THRESH);
          Rewind(tp, ti_ack, ack);
        }
      }
    } else {
      tp.t_dupacks := 0;
    }
  }

  /** The congestion window. */
  method Open(tp: Tcb)
    modifies tp`snd_cwnd
    ensures tp.snd_cwnd == Opened(old(tp.Sending()), tp.t_maxseg)
  {
    var incr := tp.t_maxseg;
    if tp.snd_cwnd > tp.snd_ssthresh {
      incr := if incr * incr / tp.snd_cwnd > 1 then incr * incr / tp.snd_cwnd else 1;
    }
    var tmp := tp.snd_cwnd + incr;
    tp.snd_cwnd := if tmp < 65535 then tmp else 65535;
  }

  /** The acknowledged bytes off the queue, and the window less by as many. */
  method Drop(tp: Tcb, ti_ack: u32, ghost ack: int)
    requires tp.QueueValid() && ti_ack == Wrap(tp.sbase + ack)
    requires 0 <= tp.una < ack <= |tp.written| + 1 && ack - tp.una <= REACH + 1
    modifies tp`snd_wnd, tp`t_qsize, tp`wq, tp`snd_una, tp`una
    ensures tp.QueueValid() && tp.una == ack && tp.snd_una == Wrap(tp.sbase + ack)
    ensures tp.snd_wnd == Shrunk(old(tp.snd_wnd), Min(ack - old(tp.una), old(|Unacked(tp.written, tp.una)|)))
  {
    hide Wrap, Sub, QueueBytes, Messages;
    Compare(tp.sbase + ack, tp.sbase + tp.una);
    var acked := Diff(ti_ack, tp.snd_una);
    UnackedAfter(tp.written, tp.una, ack);
    if acked > tp.t_qsize {
      var qsize := tp.t_qsize;
      tp.snd_wnd := Shrunk(tp.snd_wnd, qsize);
      tp.t_qsize := 0;
      tp.wq := Qdrop(tp.wq, qsize);
    } else {
      tp.snd_wnd := Shrunk(tp.snd_wnd, acked);
      tp.t_qsize := tp.t_qsize - acked;
      tp.wq := Qdrop(tp.wq, acked);
    }
    tp.snd_una, tp.una := ti_ack, ack;
  }

  lemma UnackedAfter(written: seq<byte>, una: int, ack: int)
    requires 0 <= una < ack <= |written| + 1
    ensures var u := Unacked(written, una);
            if ack - una > |u| then Unacked(written, ack) == [] && u[|u|..] == []
            else Unacked(written, ack) == u[ack - una..]
  {
  }

  /** The retransmit timer stops or goes on; `need` says that nothing is outstanding now. */
  method AckTimer(tp: Tcb, ti_ack: u32, ghost ack: int) returns (need: bool)
    requires tp.snd_max == Wrap(tp.sbase + tp.max) && ti_ack == Wrap(tp.sbase + ack) && Near(ack, tp.max)
    modifies tp`rexmt
    ensures need == (ack == tp.max) && tp.rexmt == if ack == tp.max then false else old(tp.rexmt) || !tp.persist
  {
    hide Wrap, Sub;
    Compare(tp.sbase + ack, tp.sbase + tp.max);
    need := ti_ack == tp.snd_max;
    if need {
      tp.rexmt := false;
    } else if !tp.persist {
      tp.rexmt := true;
    }
  }

  method PullUp(tp: Tcb)
    requires tp.snd_nxt == Wrap(tp.sbase + tp.nxt) && tp.snd_una == Wrap(tp.sbase + tp.una) && Near(tp.nxt, tp.una)
    modifies tp`snd_nxt, tp`nxt
    ensures tp.nxt == Max(old(tp.nxt), tp.una) && tp.snd_nxt == Wrap(tp.sbase + tp.nxt)
  {
    hide Wrap, Sub;
    Compare(tp.sbase + tp.nxt, tp.sbase + tp.una);
    if SeqLt(tp.snd_nxt, tp.snd_una) {
      tp.snd_nxt, tp.nxt := tp.snd_una, tp.una;
    }
  }

  method Loosen(tp: Tcb, ti_ack: u32, ghost ack: int) returns (need: bool)
    requires tp.snd_max == Wrap(tp.sbase + tp.max) && ti_ack == Wrap(tp.sbase + ack) && Near(ack, tp.max)
    modifies tp`t_dupacks, tp`rexmt, tp`snd_cwnd
    ensures tp.Abs() == Loosened(old(tp.Abs()), ack) && need == (ack == tp.max)
  {
    hide Wrap, Opened, tp.Rcvd;
    OpenedSame(tp.Sending(), tp.t_maxseg);
    tp.t_dupacks := 0;
    need := AckTimer(tp, ti_ack, ack);
    Open(tp);
  }

  method Release(tp: Tcb, ti_ack: u32, ghost ack: int)
    requires tp.QueueValid() && ti_ack == Wrap(tp.sbase + ack) && tp.snd_nxt == Wrap(tp.sbase + tp.nxt)
    requires 0 <= tp.una < ack <= |tp.written| + 1 && ack - tp.una <= REACH + 1 && Near(tp.nxt, ack)
    modifies tp`snd_wnd, tp`t_qsize, tp`wq, tp`snd_una, tp`una, tp`snd_nxt, tp`nxt
    ensures tp.Abs() == Dropped(old(tp.Abs()), ack) && tp.QueueValid() && tp.snd_nxt == Wrap(tp.sbase + tp.nxt)
  {
    hide Wrap, Shrunk, Unacked, Min, Max, Dropped, tp.QueueValid, tp.Rcvd, tp.Control, tp.Settings;
    ghost var e := tp.Abs();
    Drop(tp, ti_ack, ack);
    PullUp(tp);
    DroppedIs(e, ack, tp.snd_wnd, tp.nxt);
  }

  lemma DroppedIs(e: Endpoint, ack: int, wnd: nat, nxt: int)
    requires ack > e.snd.una && wnd == Shrunk(e.snd.wnd, Min(ack - e.snd.una, |Unacked(e.written, e.snd.una)|))
    requires nxt == Max(e.snd.nxt, ack)
    ensures Dropped(e, ack) == e.(snd := e.snd.(una := ack, nxt := nxt, wnd := wnd))
  {
  }

  /** An acknowledgment of something new, up to the change of state. */
  method Take(tp: Tcb, ti_ack: u32, ghost ack: int) returns (need: bool, ourfin: bool)
    requires tp.Valid() && ti_ack == Wrap(tp.sbase + ack) && tp.una < ack <= tp.max
    modifies tp
    ensures tp.Abs() == Taken(old(tp.Abs()), ack) && tp.Fixed() && tp.Moving()
    ensures need == (ack == old(tp.max)) && ourfin == OurFinAcked(old(tp.Abs()), ack)
  {
    TakenReach(tp, ack);
    hide Wrap, tp.Valid, tp.Fixed, tp.Moving, tp.QueueValid, tp.RcvValid, Sound, RcvAgrees, QueueAgrees, Settled,
        Loosened, Dropped;
    ourfin := tp.sentfin;
    need := LoosenValid(tp, ti_ack, ack);
    ourfin := ourfin && need;
    ReleaseValid(tp, ti_ack, ack);
  }

  method LoosenValid(tp: Tcb, ti_ack: u32, ghost ack: int) returns (need: bool)
    requires tp.Fixed() && tp.Moving() && ti_ack == Wrap(tp.sbase + ack) && Near(ack, tp.max)
    modifies tp`t_dupacks, tp`rexmt, tp`snd_cwnd
    ensures tp.Fixed() && tp.Moving() && tp.Abs() == Loosened(old(tp.Abs()), ack) && need == (ack == tp.max)
  {
    hide Wrap, RcvAgrees, QueueAgrees, Settled, Loosened;
    need := Loosen(tp, ti_ack, ack);
  }

  method ReleaseValid(tp: Tcb, ti_ack: u32, ghost ack: int)
    requires tp.Fixed() && tp.Moving() && ti_ack == Wrap(tp.sbase + ack)
    requires 0 <= tp.una < ack <= |tp.written| + 1 && ack - tp.una <= REACH + 1 && Near(tp.nxt, ack)
    modifies tp`snd_wnd, tp`t_qsize, tp`wq, tp`snd_una, tp`una, tp`snd_nxt, tp`nxt
    ensures tp.Fixed() && tp.Moving() && tp.Abs() == Dropped(old(tp.Abs()), ack)
  {
    hide Wrap, RcvAgrees, QueueAgrees, Settled, Dropped;
    Release(tp, ti_ack, ack);
  }

  lemma OpenedSame(s: Snd, maxseg: nat)
    ensures Opened(s.(dupacks := 0), maxseg) == Opened(s, maxseg)
  {
  }

  lemma TakenReach(tp: Tcb, ack: int)
    requires tp.Valid() && tp.una < ack <= tp.max
    ensures 0 <= tp.una && ack <= |tp.written| + 1 && ack - tp.una <= REACH + 1
    ensures Near(ack, tp.max) && Near(tp.nxt, ack) && tp.Fixed() && tp.Moving()
  {
    Extents(tp);
  }

  /** What is sound on values is valid on the control block. */
  lemma Revalid(tp: Tcb, e: Endpoint)
    requires tp.Fixed() && tp.Moving() && tp.Abs() == e && Sound(e)
    ensures tp.Valid()
  {
  }

  lemma ValidIs(tp: Tcb)
    requires tp.Valid()
    ensures Sound(tp.Abs()) && tp.Fixed() && tp.Moving() && tp.Abs().state == tp.t_state
    ensures tp.Abs().snd.una == tp.una && tp.Abs().snd.max == tp.max && tp.Abs().cfg.sbase == tp.sbase
  {
  }

  /** What the acknowledgment of our FIN does to the state. */
  method SwitchState(tp: Tcb, fin: bool, need: bool) returns (v: Verdict)
    modifies tp`t_state, tp`rexmt, tp`persist
    ensures var a := NewState(old(tp.Abs()), fin, need);
            tp.Abs() == a.e && Agrees(a, v, tp.sbase)
    ensures FinRcvd(tp.t_state) <==> FinRcvd(old(tp.t_state))
  {
    hide tp.Rcvd, tp.Sending, tp.Settings;
    v := GoOn(need);
    if tp.t_state == FIN_WAIT_1 {
      if fin {
        tp.t_state := FIN_WAIT_2;
      }
    } else if tp.t_state == CLOSING {
      if fin {
        tp.t_state := TIME_WAIT;
        tp.rexmt, tp.persist := false, false;
      }
    } else if tp.t_state == LAST_ACK {
      if fin {
        tp.t_state := CLOSED;
        v := Closed;
      }
    } else if tp.t_state == TIME_WAIT {
      v := ThenAck;
    }
  }

  method ChangeState(tp: Tcb, fin: bool, need: bool) returns (v: Verdict)
    requires tp.Fixed() && tp.Moving()
    modifies tp`t_state, tp`rexmt, tp`persist
    ensures var a := NewState(old(tp.Abs()), fin, need);
            tp.Abs() == a.e && Agrees(a, v, tp.sbase) && tp.Fixed() && tp.Moving()
  {
    hide tp.Moving, tp.RcvValid, tp.QueueValid, Settled, NewState, Agrees, FinRcvd;
    v := SwitchState(tp, fin, need);
  }

  /** `case YHTPS_TIME_WAIT` and the states that share its acknowledgment processing. */
  method AckInput(tp: Tcb, ti_ack: u32, win: nat, len: nat, ghost ack: int) returns (v: Verdict)
    requires tp.Valid() && Synchronized(tp.t_state)
    requires ti_ack == Wrap(tp.sbase + ack) && -4 * REACH <= ack - tp.una <= 4 * REACH
    modifies tp
    ensures var a := AckOf(old(tp.Abs()), ack, win, len);
            tp.Abs() == a.e && Agrees(a, v, tp.sbase) && tp.Valid()
  {
    hide tp.Valid, tp.Fixed, tp.Moving, tp.Rcvd, Wrap, Sound, OldAck, NewState, Taken, OurFinAcked, Sub;
    ghost var e := tp.Abs();
    Extents(tp);
    ValidIs(tp);
    AckSound(e, ack, win, len);
    Compare(tp.sbase + ack, tp.sbase + tp.una);
    Compare(tp.sbase + ack, tp.sbase + tp.max);
    if SeqLeq(ti_ack, tp.snd_una) {
      v := DuplicateValid(tp, ti_ack, win, len, ack);
    } else if SeqGt(ti_ack, tp.snd_max) {
      v := TooMuch(tp);
    } else {
      var need, fin := Take(tp, ti_ack, ack);
      v := ChangeState(tp, fin, need);
    }
    Revalid(tp, AckOf(e, ack, win, len).e);
  }

  method DuplicateValid(tp: Tcb, ti_ack: u32, win: nat, len: nat, ghost ack: int) returns (v: Verdict)
    requires tp.Fixed() && tp.Moving() && tp.t_maxseg >= 1
    requires ti_ack == Wrap(tp.sbase + ack) && -4 * REACH <= ack - tp.una <= 0
    modifies tp
    ensures var a := OldAck(old(tp.Abs()), ack, win, len);
            tp.Abs() == a.e && Agrees(a, v, tp.sbase) && tp.Fixed() && tp.Moving()
  {
    hide Wrap, RcvAgrees, QueueAgrees, Settled, OldAck, Agrees, tp.Control, tp.Settings, tp.Rcvd;
    WireFacts(tp);
    v := Duplicate(tp, ti_ack, win, len, ack);
  }

  method TooMuch(tp: Tcb) returns (v: Verdict)
    requires tp.Fixed() && tp.Moving()
    modifies tp`t_dupacks
    ensures tp.Abs() == DupAcks(old(tp.Abs()), 0) && v == ThenAck && tp.Fixed() && tp.Moving()
  {
    hide tp.Fixed, tp.Moving;
    tp.t_dupacks := 0;
    v := ThenAck;
  }

  // ----- window, text, FIN

  method RaiseMax(tp: Tcb)
    modifies tp`max_sndwnd
    ensures tp.max_sndwnd == Max(old(tp.max_sndwnd), tp.snd_wnd)
  {
    if tp.snd_wnd > tp.max_sndwnd {
      tp.max_sndwnd := tp.snd_wnd;
    }
  }

  method NoteInput(tp: Tcb, seqno: u32, ti_ack: u32, win: nat)
    requires win <= 65535
    modifies tp`snd_wnd, tp`snd_wl1, tp`snd_wl2, tp`max_sndwnd
    ensures tp.Abs() == NoteWindow(old(tp.Abs()), seqno, ti_ack, win)
  {
    hide Max, tp.Settings, tp.Control, tp.Rcvd;
    tp.snd_wnd, tp.snd_wl1, tp.snd_wl2 := win, seqno, ti_ack;
    RaiseMax(tp);
  }

  method WindowInput(tp: Tcb, seqno: u32, ti_ack: u32, win: nat) returns (need: bool)
    requires tp.Valid() && win <= 65535
    modifies tp`snd_wnd, tp`snd_wl1, tp`snd_wl2, tp`max_sndwnd
    ensures tp.Abs() == Windowed(old(tp.Abs()), seqno, ti_ack, win) && tp.Valid()
    ensures need == NewWindow(old(tp.Abs()), seqno, ti_ack, win)
  {
    ghost var e := tp.Abs();
    WindowedSound(e, seqno, ti_ack, win);
    NoteWnd(e, seqno, ti_ack, win);
    hide tp.Moving, RcvAgrees, QueueAgrees, Settled, Sound, SeqLt, NoteWindow;
    need := false;
    if SeqLt(tp.snd_wl1, seqno)
       || (tp.snd_wl1 == seqno && (SeqLt(tp.snd_wl2, ti_ack) || (tp.snd_wl2 == ti_ack && win > tp.snd_wnd))) {
      NoteInput(tp, seqno, ti_ack, win);
      need := true;
    }
  }

  lemma NoteWnd(e: Endpoint, seqno: u32, ack: u32, win: nat)
    ensures NoteWindow(e, seqno, ack, win).snd.wnd == win
  {
  }

  method CountFin(tp: Tcb)
    requires tp.RcvValid() && Settled(tp.rnxt, tp.held)
    modifies tp`rcv_nxt, tp`rnxt, tp`acknow
    ensures tp.Abs() == Counted(old(tp.Abs())) && tp.RcvValid()
  {
    AddWrap(tp.rbase + tp.rnxt, 1);
    SortedPast(tp.rnxt, tp.held);
    hide Wrap, Sorted, Settled, Flatten, NoEmpty;
    tp.acknow := true;
    tp.rcv_nxt, tp.rnxt := Add(tp.rcv_nxt, 1), tp.rnxt + 1;
  }

  method StateAfterFin(tp: Tcb)
    modifies tp`t_state, tp`rexmt, tp`persist
    ensures tp.Abs() == FinState(old(tp.Abs()))
  {
    hide tp.Rcvd, tp.Sending, tp.Settings;
    if tp.t_state == ESTABLISHED {
      tp.t_state := CLOSE_WAIT;
    } else if tp.t_state == FIN_WAIT_1 {
      tp.t_state := CLOSING;
    } else if tp.t_state == FIN_WAIT_2 {
      tp.t_state := TIME_WAIT;
      tp.rexmt, tp.persist := false, false;
    }
  }

  lemma FinStateRcvd(e: Endpoint)
    requires Synchronized(e.state)
    ensures FinRcvd(FinArrived(e).state) && FinArrived(e).rcv.nxt == e.rcv.nxt + 1
  {
  }

  /** The fields that Moving speaks of, but for `rcv_nxt`. */
  ghost predicate Steady(tp: Tcb)
    reads tp`sbase, tp`rbase, tp`snd_nxt, tp`nxt, tp`snd_max, tp`max, tp`rcv_adv, tp`adv
  {
    tp.snd_nxt == Wrap(tp.sbase + tp.nxt) && tp.snd_max == Wrap(tp.sbase + tp.max)
    && tp.rcv_adv == Wrap(tp.rbase + tp.adv)
  }

  lemma FixedAfterFin(tp: Tcb, e: Endpoint)
    requires tp.Abs() == FinArrived(e) && FinRcvd(tp.t_state) && e.rcv.nxt - e.adv < 4 * REACH
    requires tp.RcvValid() && tp.QueueValid() && Steady(tp) && tp.q_hiwat <= REACH
    ensures tp.Fixed() && tp.Moving()
  {
    assert tp.rnxt == e.rcv.nxt + 1 && tp.adv == e.adv;
  }

  lemma FinFacts(tp: Tcb)
    requires tp.Valid() && !FinRcvd(tp.t_state) && Synchronized(tp.t_state)
    ensures tp.RcvValid() && tp.QueueValid() && Settled(tp.rnxt, tp.held) && tp.q_hiwat <= REACH && Steady(tp)
    ensures FinRcvd(FinArrived(tp.Abs()).state) && FinArrived(tp.Abs()).rcv.nxt == tp.Abs().rcv.nxt + 1
    ensures tp.Abs().rcv.nxt == tp.rnxt && tp.Abs().adv == tp.adv
  {
    FinStateRcvd(tp.Abs());
  }

  /** The FIN's own place in the sequence space, and the state after it. */
  method FinInput(tp: Tcb)
    requires tp.Valid() && !FinRcvd(tp.t_state) && Synchronized(tp.t_state) && tp.rnxt - tp.adv < 4 * REACH
    modifies tp
    ensures tp.Abs() == FinArrived(old(tp.Abs())) && tp.Fixed() && tp.Moving()
  {
    hide Steady, tp.Valid, tp.Fixed, tp.Moving, tp.RcvValid, tp.QueueValid, Wrap, Settled, Counted, FinState, Sound,
      Synchronized, tp.Settings, tp.Sending;
    ghost var e := tp.Abs();
    FinFacts(tp);
    CountFin(tp);
    StateAfterFin(tp);
    FixedAfterFin(tp, e);
  }

  lemma {:induction false} DrainReach(nxt: int, held: seq<Held>, lim: int)
    requires nxt <= lim && forall i :: 0 <= i < |held| ==> held[i].End() <= lim
    ensures Drain(nxt, held).nxt <= lim
    decreases |held|
  {
    if held != [] && held[0].pos == nxt {
      DrainReach(held[0].End(), held[1..], lim);
    }
  }

  /** Merging moves `rcv_nxt` on, by no more than the reach. */
  lemma MergedReach(e: Endpoint, h: Held, credits: nat)
    requires Sorted(e.rcv.nxt, e.rcv.held) && Reaches(e.rcv.held, e.rcv.nxt) && Sound(e)
    requires e.rcv.nxt <= h.pos && h.End() <= e.rcv.nxt + REACH
    ensures var m := Merged(e, h, credits);
            e.rcv.nxt <= m.rcv.nxt <= e.rcv.nxt + REACH && Sound(m) && m.state == e.state && m.adv == e.adv
  {
    hide Insert, Drain, Sorted, Reaches;
    var q := Insert(e.rcv.held, h);
    QueuedFacts(e.rcv.held, e.rcv.nxt, h);
    DrainKeeps(e.rcv.nxt, q);
    assert forall i :: 0 <= i < |q| ==> q[i].End() <= e.rcv.nxt + REACH by { ReachesAll(q, e.rcv.nxt); }
    DrainReach(e.rcv.nxt, q, e.rcv.nxt + REACH);
  }

  lemma ReachesAll(held: seq<Held>, nxt: int)
    requires Reaches(held, nxt)
    ensures forall i :: 0 <= i < |held| ==> held[i].End() <= nxt + REACH
  {
  }

  method Reassemble(tp: Tcb, seg: Seg, credits: nat, ghost pos: int) returns (fin: bool)
    requires tp.RcvValid() && Settled(tp.rnxt, tp.held) && Incoming(tp, seg, pos)
    modifies tp`seg_next, tp`held, tp`rcv_nxt, tp`rnxt, tp`up, tp`t_qfirst, tp`t_iqsize
    ensures tp.RcvValid() && Settled(tp.rnxt, tp.held)
    ensures var x := Reassembled(old(tp.Rcvd()), Held(pos, seg.data, seg.fin), credits);
            tp.Abs() == old(tp.Abs()).(rcv := x.0) && fin == x.1
  {
    hide tp.RcvValid, tp.Settings, tp.Sending, tp.Control, Settled, Reassembled, Incoming;
    fin := ReassMacro(tp, seg, credits, pos);
  }

  method Merge(tp: Tcb, seqno: u32, data: seq<byte>, flagged: bool, credits: nat, ghost pos: int) returns (fin: bool)
    requires tp.Valid() && !FinRcvd(tp.t_state) && tp.rnxt - tp.adv <= 2 * REACH
    requires seqno == Wrap(tp.rbase + pos) && tp.rnxt <= pos && pos + |data| <= tp.rnxt + REACH
    modifies tp
    ensures var e, h := old(tp.Abs()), Held(pos, data, flagged);
            tp.Abs() == Merged(e, h, credits) && fin == Reassembled(e.rcv, h, credits).1
    ensures tp.Fixed() && tp.Moving() && tp.rnxt - tp.adv < 4 * REACH
  {
    hide tp.Valid, tp.Fixed, tp.Moving, tp.RcvValid, tp.QueueValid, Wrap, Settled, Sound, Reassembled, Steady,
        AckLater, Merged;
    ghost var e, h := tp.Abs(), Held(pos, data, flagged);
    MergeFacts(tp, e, h, credits);
    fin := Reassemble(tp, Seg(seqno, data, flagged), credits, pos);
    NoteAck(tp);
    MergedIs(e, h, credits);
    MergedFixed(tp);
  }

  lemma MergedIs(e: Endpoint, h: Held, credits: nat)
    ensures Merged(e, h, credits)
         == e.(rcv := Reassembled(e.rcv, h, credits).0).(ctl := AckLater(e.ctl, e.cfg.nodelack))
  {
  }

  /** What merging starts from, and how far it goes. */
  lemma MergeFacts(tp: Tcb, e: Endpoint, h: Held, credits: nat)
    requires tp.Valid() && e == tp.Abs() && !FinRcvd(tp.t_state) && tp.rnxt - tp.adv <= 2 * REACH
    requires tp.rnxt <= h.pos && h.End() <= tp.rnxt + REACH
    ensures Steady(tp) && tp.RcvValid() && Settled(tp.rnxt, tp.held) && tp.QueueValid()
    ensures tp.q_hiwat <= REACH
    ensures Reassembled(e.rcv, h, credits).0.nxt - tp.adv < 4 * REACH
  {
    MergedReach(e, h, credits);
  }

  method NoteAck(tp: Tcb)
    modifies tp`acknow, tp`delack
    ensures tp.Abs() == old(tp.Abs()).(ctl := AckLater(old(tp.Abs()).ctl, tp.nodelack))
  {
    if tp.nodelack {
      tp.acknow := true;
    } else {
      tp.delack := true;
    }
  }

  lemma MergedFixed(tp: Tcb)
    requires Steady(tp) && tp.RcvValid() && Settled(tp.rnxt, tp.held) && tp.QueueValid()
    requires tp.q_hiwat <= REACH && tp.rnxt - tp.adv < 4 * REACH
    ensures tp.Fixed() && tp.Moving()
  {
  }

  lemma FinSound(e: Endpoint)
    requires Sound(e) && Synchronized(e.state) && !FinRcvd(e.state)
    ensures Sound(FinArrived(e))
  {
  }

  /** The text of the trimmed segment, and its FIN. */
  method TextInput(tp: Tcb, seqno: u32, data: seq<byte>, fin: bool, flagged: bool, credits: nat, ghost t: Trimmed)
    requires tp.Valid() && Synchronized(tp.t_state) && tp.rnxt - tp.adv <= 2 * REACH
    requires t.Kept? && t.data == data && t.fin == fin && seqno == Wrap(tp.rbase + t.pos)
    requires data != [] || fin ==> tp.rnxt <= t.pos && t.pos + |data| <= tp.rnxt + REACH
    modifies tp
    ensures tp.Abs() == Text(old(tp.Abs()), t, flagged, credits) && tp.Valid()
  {
    ghost var e, h := tp.Abs(), Held(t.pos, data, flagged);
    if (|data| > 0 || fin) && !HaveRcvdFin(tp.t_state) {
      ValidIs(tp);
      assert Sorted(tp.rnxt, tp.held) && Reaches(tp.held, tp.rnxt);
      MergedReach(e, h, credits);
      hide tp.Valid, Wrap, Sound, Reassembled, Merged, FinArrived, Sorted, Reaches, tp.Fixed, tp.Moving;
      var finAnswered := Merge(tp, seqno, data, flagged, credits, t.pos);
      Revalid(tp, Merged(e, h, credits));
      if finAnswered {
        FinSound(Merged(e, h, credits));
        FinInput(tp);
        Revalid(tp, FinArrived(Merged(e, h, credits)));
      }
    }
  }

  // ----- the whole

  lemma OwesSound(e: Endpoint)
    requires Sound(e)
    ensures Sound(Owes(e))
  {
  }

  /** TF_ACKNOW set. */
  method Owe(tp: Tcb)
    requires tp.Valid()
    modifies tp`acknow
    ensures tp.Valid() && tp.Abs() == Owes(old(tp.Abs()))
  {
    OwesSound(tp.Abs());
    hide RcvAgrees, QueueAgrees, Settled, Sound;
    tp.acknow := true;
  }

  lemma RestoredSound(e: Endpoint, onxt: int)
    requires Sound(e) && onxt <= e.snd.max
    ensures Sound(Restored(e, onxt))
  {
  }

  /** `if (SEQ_GT(onxt, tp->snd_nxt)) tp->snd_nxt = onxt` */
  method Restore(tp: Tcb, onxt: u32, ghost pos: int)
    requires tp.Valid() && onxt == Wrap(tp.sbase + pos) && tp.una <= pos <= tp.max
    modifies tp`snd_nxt, tp`nxt
    ensures tp.Valid() && tp.Abs() == Restored(old(tp.Abs()), pos)
  {
    hide RcvAgrees, QueueAgrees, Settled, Sound, Wrap, Sub, tp.Settings, tp.Control;
    Extents(tp);
    RestoredSound(tp.Abs(), pos);
    Compare(tp.sbase + pos, tp.sbase + tp.nxt);
    if SeqGt(onxt, tp.snd_nxt) {
      tp.snd_nxt, tp.nxt := onxt, pos;
    }
  }

  /** A call of `yhtp_output` from here. */
  method Reply(tp: Tcb) returns (sent: seq<Segment>, ghost pkts: seq<Packet>)
    requires tp.Valid() && Synchronized(tp.t_state)
    modifies tp
    ensures tp.Valid() && Replies(old(tp.Abs()), tp.Abs(), pkts) && sent == AllOnWire(pkts, tp.sbase, tp.rbase)
    ensures tp.sbase == old(tp.sbase) && tp.rbase == old(tp.rbase)
  {
    hide Outputs, tp.Valid, AllOnWire;
    sent, pkts := Output(tp);
  }

  /** `step6` to the end. */
  method Finish(tp: Tcb, seqno: u32, data: seq<byte>, fin: bool, ti: Segment, need: bool, credits: nat,
                ghost p: Packet, ghost t: Trimmed)
    returns (sent: seq<Segment>, ghost pkts: seq<Packet>)
    requires tp.Valid() && Synchronized(tp.t_state) && tp.rnxt - tp.adv <= 2 * REACH
    requires t.Kept? && t.data == data && t.fin == fin && seqno == Wrap(tp.rbase + t.pos)
    requires data != [] || fin ==> tp.rnxt <= t.pos && t.pos + |data| <= tp.rnxt + REACH
    requires ti == OnWire(p, tp.rbase, tp.sbase) && p.win <= 65535
    modifies tp
    ensures tp.Valid() && Answers(Continue(old(tp.Abs()), need), p, t, credits, tp.Abs(), pkts)
    ensures sent == AllOnWire(pkts, tp.sbase, tp.rbase)
  {
    hide tp.Valid, tp.Fixed, tp.Moving, Wrap, Windowed, NewWindow, Text, AllOnWire, Answers, Replies, Received,
        NeedsReply;
    ghost var f := tp.Abs();
    WindowedParts(f, seqno, ti.ack, p.win);
    WireParts(p, tp.rbase, tp.sbase);
    ReceivedIs(f, p, t, need, credits, seqno, ti.ack);
    var wider := WindowInput(tp, seqno, ti.ack, ti.win);
    TextInput(tp, seqno, data, fin, ti.fin, credits, t);
    ghost var g := tp.Abs();
    TextParts(Windowed(f, seqno, ti.ack, p.win), t, p.fin, credits);
    if need || wider || tp.acknow {
      sent, pkts := Reply(tp);
    } else {
      sent, pkts := [], [];
      NoneOnWire(tp.sbase, tp.rbase);
    }
    ContinueAnswers(f, need, p, t, credits, g, tp.Abs(), pkts);
  }

  lemma WireParts(p: Packet, base: int, peer: int)
    ensures var w := OnWire(p, base, peer);
            w.data == p.data && w.fin == p.fin && w.win == p.win && w.ack == Wrap(peer + p.ack)
                && w.seqno == Wrap(base + p.pos)
  {
  }

  lemma ReceivedIs(f: Endpoint, p: Packet, t: Trimmed, need: bool, credits: nat, seqno: u32, ack: u32)
    requires t.Kept? && seqno == Wrap(f.cfg.rbase + t.pos) && ack == Wrap(f.cfg.sbase + p.ack)
    ensures Received(f, p, t, credits) == Text(Windowed(f, seqno, ack, p.win), t, p.fin, credits)
    ensures forall g :: NeedsReply(f, p, t, need, g) <==> need || NewWindow(f, seqno, ack, p.win) || g.ctl.acknow
  {
  }

  lemma ContinueAnswers(f: Endpoint, need: bool, p: Packet, t: Trimmed, credits: nat, g: Endpoint, e': Endpoint,
                        pkts: seq<Packet>)
    requires g == Received(f, p, t, credits)
    requires if NeedsReply(f, p, t, need, g) then Replies(g, e', pkts) else e' == g && pkts == []
    ensures Answers(Continue(f, need), p, t, credits, e', pkts)
  {
  }

  lemma WindowedParts(e: Endpoint, seqno: u32, ack: u32, win: nat)
    ensures var f := Windowed(e, seqno, ack, win);
            f.state == e.state && f.cfg == e.cfg && f.rcv == e.rcv && f.adv == e.adv
  {
  }

  lemma TextParts(e: Endpoint, t: Trimmed, flagged: bool, credits: nat)
    ensures Text(e, t, flagged, credits).cfg == e.cfg
    ensures Synchronized(e.state) ==> Synchronized(Text(e, t, flagged, credits).state)
  {
  }

  lemma AckParts(e: Endpoint, ack: int, win: nat, len: nat)
    ensures var a := AckOf(e, ack, win, len); a.e.cfg == e.cfg && a.e.rcv == e.rcv && a.e.adv == e.adv
    ensures var a := AckOf(e, ack, win, len);
            a.Resend? ==> a.onxt == e.snd.nxt && a.e.snd.una == e.snd.una && a.e.snd.max == e.snd.max
  {
  }

  /** The duplicates' retransmission. */
  method Again(tp: Tcb, onxt: u32, ghost pos: int) returns (sent: seq<Segment>, ghost pkts: seq<Packet>)
    requires tp.Valid() && Synchronized(tp.t_state) && onxt == Wrap(tp.sbase + pos) && tp.una <= pos <= tp.max
    modifies tp
    ensures tp.Valid() && exists m :: Replies(old(tp.Abs()), m, pkts) && tp.Abs() == Restored(m, pos)
    ensures sent == AllOnWire(pkts, tp.sbase, tp.rbase)
  {
    hide tp.Valid, tp.Fixed, tp.Moving, Wrap, AllOnWire, Replies, Restored;
    ghost var e := tp.Abs();
    ReceivedSome(tp);
    sent, pkts := Reply(tp);
    RepliesLater(e, tp.Abs(), pkts);
    Restore(tp, onxt, pos);
  }

  lemma ReceivedSome(tp: Tcb)
    requires tp.Valid()
    ensures Sound(tp.Abs()) && 0 <= tp.Abs().rcv.nxt
  {
  }

  lemma RepliesLater(e: Endpoint, m: Endpoint, pkts: seq<Packet>)
    requires Sound(e) && 0 <= e.rcv.nxt && Replies(e, m, pkts)
    ensures m.snd.una == e.snd.una && m.snd.max >= e.snd.max
  {
    OutputsFacts(e, Idle(e), m, pkts);
  }

  /** What the verdict on the acknowledgment leads to. */
  method AfterAck(tp: Tcb, v: Verdict, seqno: u32, data: seq<byte>, fin: bool, ti: Segment, credits: nat,
                  ghost a: Acked, ghost p: Packet, ghost t: Trimmed)
    returns (sent: seq<Segment>, ghost pkts: seq<Packet>)
    requires tp.Valid() && tp.rnxt - tp.adv <= 2 * REACH && tp.Abs() == a.e && Agrees(a, v, tp.sbase)
    requires !a.Gone? ==> Synchronized(tp.t_state)
    requires a.Resend? ==> tp.una <= a.onxt <= tp.max
    requires t.Kept? && t.data == data && t.fin == fin && seqno == Wrap(tp.rbase + t.pos)
    requires data != [] || fin ==> tp.rnxt <= t.pos && t.pos + |data| <= tp.rnxt + REACH
    requires ti == OnWire(p, tp.rbase, tp.sbase) && p.win <= 65535
    modifies tp
    ensures tp.Valid() && Answers(a, p, t, credits, tp.Abs(), pkts) && sent == AllOnWire(pkts, tp.sbase, tp.rbase)
  {
    hide tp.Valid, Wrap, AllOnWire, Outputs, Replies, Received, NeedsReply, Restored, OnWire;
    match v
    case ThenAck =>
      Owe(tp);
      sent, pkts := Reply(tp);
    case Closed =>
      sent, pkts := [], [];
      NoneOnWire(tp.sbase, tp.rbase);
    case Retransmit(onxt) =>
      sent, pkts := Again(tp, onxt, a.onxt);
    case GoOn(need) =>
      sent, pkts := Finish(tp, seqno, data, fin, ti, need, credits, p, t);
  }

  /** `yhtp_uinput` on one segment. */
  method Uinput(tp: Tcb, ti: Segment, credits: nat, ghost p: Packet)
    returns (sent: seq<Segment>, ghost pkts: seq<Packet>)
    requires tp.Valid() && Synchronized(tp.t_state) && Arrives(tp, ti, p) && tp.rnxt - tp.adv <= 2 * REACH
    modifies tp
    ensures tp.Valid() && Inputs(old(tp.Abs()), p, credits, tp.Abs(), pkts)
    ensures sent == AllOnWire(pkts, tp.sbase, tp.rbase)
  {
    hide tp.Valid, tp.Fixed, tp.Moving, Wrap, AllOnWire, Outputs, Replies, Trim, AckOf, Sound, Room, Answers, Agrees,
        SameRcv, Arrives, Owes;
    ghost var e, t := tp.Abs(), Trim(tp.Abs(), p);
    Setup(tp, ti, p);
    var rejected, seqno, data, fin, now := TrimSegment(tp, ti, p);
    if rejected {
      Owe(tp);
      sent, pkts := Reply(tp);
      return;
    }
    if now {
      Owe(tp);
    }
    ghost var f := tp.Abs();
    OwesParts(e);
    assert f == if t.now then Owes(e) else e;
    ghost var a := AckOf(f, p.ack, p.win, |data|);
    AckParts(f, p.ack, p.win, |data|);
    AckSound(f, p.ack, p.win, |data|);
    var v := AckInput(tp, ti.ack, ti.win, |data|, p.ack);
    sent, pkts := AfterAck(tp, v, seqno, data, fin, ti, credits, a, p, t);
  }

  lemma OwesParts(e: Endpoint)
    requires Sound(e)
    ensures Sound(Owes(e)) && Owes(e).snd == e.snd && Owes(e).state == e.state && Owes(e).cfg == e.cfg
            && Owes(e).rcv == e.rcv
            && Owes(e).adv == e.adv
  {
  }

  /** What the routine starts from. */
  lemma Setup(tp: Tcb, ti: Segment, p: Packet)
    requires tp.Valid() && Arrives(tp, ti, p)
    ensures var e, t := tp.Abs(), Trim(tp.Abs(), p);
            Sound(e) && 0 <= e.snd.una <= e.snd.nxt <= e.snd.max
            && (t.Kept? && (t.data != [] || t.fin) ==> e.rcv.nxt <= t.pos && t.pos + |t.data| <= e.rcv.nxt + REACH)
    ensures ti == OnWire(p, tp.rbase, tp.sbase) && p.win <= 65535 && -4 * REACH <= p.ack - tp.una <= 4 * REACH
    ensures ti.ack == Wrap(tp.sbase + p.ack) && ti.win == p.win
  {
    TrimBounds(tp.Abs(), p);
  }
}
