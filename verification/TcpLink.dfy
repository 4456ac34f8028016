/** Two control blocks and the segments between them: every step of theirs is a step of TcpRun, so what holds in
    every run holds of their 32-bit fields. */
module TcpLink {
  import opened Bytes
  import opened TcpSeq
  import opened TcpReass
  import opened TcpChain
  import opened TcpTcb
  import opened TcpReceive
  import opened TcpOutput
  import opened TcpInput
  import opened TcpTimers
  import opened TcpUinput
  import opened TcpRun

  // ----- what the user and the timers do to a control block

  lemma UnackedMore(written: seq<byte>, una: int, d: seq<byte>)
    requires 0 <= una <= |written|
    ensures Unacked(written + d, una) == Unacked(written, una) + d
  {
  }

  lemma WriteSound(e: Endpoint, d: seq<byte>)
    requires Sound(e) && Synchronized(e.state) && !UserClosed(e.state)
    ensures Sound(e.(written := e.written + d)) && 0 <= e.snd.una <= |e.written|
  {
  }

  lemma CloseSound(e: Endpoint)
    requires Sound(e) && Synchronized(e.state)
    ensures Sound(e.(state := ClosedState(e.state))) && (FinRcvd(ClosedState(e.state)) <==> FinRcvd(e.state))
  {
  }

  lemma TickSound(e: Endpoint, back: bool, cwnd: nat, ssthresh: nat, ctl: Ctl)
    requires Sound(e)
    ensures Sound(Ticked(e, back, cwnd, ssthresh, ctl))
  {
  }

  lemma ReadSound(e: Endpoint, credits: nat)
    requires Sound(e)
    ensures Sound(e.(rcv := Dequeued(e.rcv, credits)))
  {
  }

  /** A message of data behind the others. */
  method Putq(tp: Tcb, bp: Chain)
    requires tp.Valid() && Synchronized(tp.t_state) && !UserClosed(tp.t_state)
    requires bp != [] && tp.t_qsize + |Flatten(bp)| <= REACH
    modifies tp`t_qsize, tp`wq, tp`written
    ensures tp.Valid() && tp.Abs() == old(tp.Abs()).(written := old(tp.written) + Flatten(bp))
  {
    hide Flatten, QueueBytes, Sound, Wrap, Settled, RcvAgrees, Unacked, FinRcvd, Synchronized, UserClosed, tp.Moving,
      tp.Rcvd, tp.Control, tp.Settings;
    WriteSound(tp.Abs(), Flatten(bp));
    UnackedMore(tp.written, tp.una, Flatten(bp));
    QueueAppend(tp.wq, bp);
    tp.t_qsize := tp.t_qsize + |Flatten(bp)|;
    tp.wq := tp.wq + [bp];
    tp.written := tp.written + Flatten(bp);
  }

  /** `yhtp_usrclosed`. */
  method Usrclosed(tp: Tcb)
    requires tp.Valid() && Synchronized(tp.t_state)
    modifies tp`t_state
    ensures tp.Valid() && tp.Abs() == old(tp.Abs()).(state := ClosedState(old(tp.t_state)))
  {
    hide FinRcvd, Sound, RcvAgrees, QueueAgrees, Wrap, Settled, tp.Moving;
    CloseSound(tp.Abs());
    if tp.t_state == ESTABLISHED {
      tp.t_state := FIN_WAIT_1;
    } else if tp.t_state == CLOSE_WAIT {
      tp.t_state := LAST_ACK;
    }
  }

  /** What a timer has left in a control block. */
  twostate predicate TickOf(tp: Tcb, ev: Event)
    reads tp
  {
    ev.Tick? && tp.Abs() == Ticked(old(tp.Abs()), ev.back, ev.cwnd, ev.ssthresh, ev.ctl)
  }

  lemma RexmtStarts(tp: Tcb)
    requires tp.Valid()
    ensures Sound(tp.Abs()) && tp.Fixed() && tp.t_maxseg >= 1 && tp.snd_una == Wrap(tp.sbase + tp.una)
    ensures tp.snd_max == Wrap(tp.sbase + tp.max) && tp.rcv_adv == Wrap(tp.rbase + tp.adv)
    ensures tp.rnxt - tp.adv <= 4 * REACH
  {
  }

  lemma RexmtEnds(tp: Tcb)
    requires tp.snd_nxt == Wrap(tp.sbase + tp.nxt)
    requires tp.snd_max == Wrap(tp.sbase + tp.max) && tp.rcv_adv == Wrap(tp.rbase + tp.adv)
    requires tp.rnxt - tp.adv <= 4 * REACH
    ensures Sound(tp.Abs()) && tp.Fixed() ==> tp.Valid()
  {
  }

  /** Back to what is not acknowledged, with a congestion window of one segment. */
  method Collapse(tp: Tcb, ssthresh: nat)
    requires tp.snd_una == Wrap(tp.sbase + tp.una)
    modifies tp`snd_nxt, tp`nxt, tp`snd_cwnd, tp`snd_ssthresh, tp`rexmt
    ensures tp.Abs() == Ticked(old(tp.Abs()), true, tp.t_maxseg, ssthresh, old(tp.Control()).(rexmt := true))
    ensures tp.snd_nxt == tp.snd_una == Wrap(tp.sbase + tp.nxt) && tp.snd_cwnd == tp.t_maxseg
  {
    hide Wrap, tp.Rcvd, tp.Settings;
    tp.rexmt := true;
    tp.snd_nxt, tp.nxt := tp.snd_una, tp.una;
    tp.snd_ssthresh := ssthresh;
    tp.snd_cwnd := tp.t_maxseg;
  }

  /** The retransmission timer, up to its call of `yhtp_output`. */
  method Rexmt(tp: Tcb) returns (ghost ev: Event)
    requires tp.Valid()
    modifies tp`snd_nxt, tp`nxt, tp`snd_cwnd, tp`snd_ssthresh, tp`rexmt
    ensures tp.Valid() && TickOf(tp, ev)
    ensures tp.snd_nxt == tp.snd_una && tp.snd_cwnd == tp.t_maxseg
  {
    hide tp.Valid, tp.Fixed, tp.Moving, Sound, Wrap, Min, Max, tp.Rcvd, tp.Sending, tp.Settings, tp.Abs, Ticked;
    RexmtStarts(tp);
    var ssthresh := Threshold(tp);
    ghost var ctl := tp.Control().(rexmt := true);
    ev := Tick(true, tp.t_maxseg, ssthresh, ctl);
    TickSound(tp.Abs(), true, tp.t_maxseg, ssthresh, ctl);
    Collapse(tp, ssthresh);
    RexmtEnds(tp);
  }

  /** The persist timer: a byte will be forced out.  `yhtp_setpersist` panics if the retransmit timer runs. */
  method Persist(tp: Tcb) returns (ghost ev: Event)
    requires tp.Valid() && !tp.rexmt
    modifies tp`t_force, tp`persist
    ensures tp.Valid() && TickOf(tp, ev) && tp.t_force && tp.persist
  {
    hide Sound, RcvAgrees, QueueAgrees, Wrap, Settled, FinRcvd, tp.Fixed, tp.Moving;
    ghost var ctl := Ctl(true, true, tp.rexmt, tp.acknow, tp.delack);
    ev := Tick(false, tp.snd_cwnd, tp.snd_ssthresh, ctl);
    TickSound(tp.Abs(), false, tp.snd_cwnd, tp.snd_ssthresh, ctl);
    tp.persist := true;
    tp.t_force := true;
  }

  /** The fast timeout: a delayed acknowledgment is due now. */
  method Fasttimo(tp: Tcb) returns (ghost ev: Event)
    requires tp.Valid()
    modifies tp`delack, tp`acknow
    ensures tp.Valid() && TickOf(tp, ev) && !tp.delack && (old(tp.delack) ==> tp.acknow)
  {
    hide Sound, RcvAgrees, QueueAgrees, Wrap, Settled, FinRcvd, tp.Fixed, tp.Moving;
    ghost var ctl := Ctl(tp.t_force, tp.persist, tp.rexmt, tp.acknow || tp.delack, false);
    ev := Tick(false, tp.snd_cwnd, tp.snd_ssthresh, ctl);
    TickSound(tp.Abs(), false, tp.snd_cwnd, tp.snd_ssthresh, ctl);
    if tp.delack {
      tp.delack := false;
      tp.acknow := true;
    }
  }

  /** The user takes what waits, as long as there is room for `credits` messages. */
  method Receive(tp: Tcb, credits: nat)
    requires tp.Valid()
    modifies tp`t_qfirst, tp`t_iqsize, tp`up
    ensures tp.Valid() && tp.Abs() == old(tp.Abs()).(rcv := Dequeued(old(tp.Rcvd()), credits))
  {
    hide Sound, RcvAgrees, QueueAgrees, Wrap, Settled, Dequeued, FinRcvd;
    ReadSound(tp.Abs(), credits);
    DequeuedKeeps(tp.Rcvd(), credits);
    Deqdata(tp, credits);
  }

  lemma DequeuedKeeps(r: Rcv, credits: nat)
    ensures Dequeued(r, credits).nxt == r.nxt && Dequeued(r, credits).held == r.held
  {
  }

  lemma Freshly(tp: Tcb)
    requires tp.Valid() && tp.t_state == ESTABLISHED && tp.written == [] && tp.Rcvd() == Rcv(0, [], [], [])
    requires tp.una == tp.max == 0
    ensures Fresh(tp.Abs())
  {
  }

  lemma RunBegins(a: Endpoint, b: Endpoint)
    requires Fresh(a) && Fresh(b) && a.cfg.sbase == b.cfg.rbase && b.cfg.sbase == a.cfg.rbase
    ensures Run([Sys(a, b, [], [], false, false)])
  {
  }

  // ----- the two of them

  /** Near enough for 32 bits to place it. */
  ghost predicate Near30(e: Endpoint, p: Packet) {
    -4 * REACH <= p.pos - e.rcv.nxt <= 4 * REACH && |p.data| <= REACH && -4 * REACH <= p.ack - e.snd.una <= 4 * REACH
  }

  /** The step that the left or the right endpoint takes. */
  ghost predicate Goes(s: Sys, left: bool, ev: Event, s': Sys) {
    if left then StepOf(s, ev, s') else StepOf(Swap(s), ev, Swap(s'))
  }

  ghost predicate Acts(s: Sys, left: bool, ev: Event, e': Endpoint, pkts: seq<Packet>) {
    if left then Does(s.a, s.fromB, ev, e', pkts) else Does(s.b, s.fromA, ev, e', pkts)
  }

  ghost function StateAfter(s: Sys, left: bool, ev: Event, e': Endpoint, pkts: seq<Packet>): Sys {
    if left then Sys(e', s.b, s.fromA + pkts, s.fromB, s.cutA || Cuts(s.a, ev), s.cutB)
    else Sys(s.a, e', s.fromA, s.fromB + pkts, s.cutA, s.cutB || Cuts(s.b, ev))
  }

  lemma StateAfterGoes(s: Sys, left: bool, ev: Event, e': Endpoint, pkts: seq<Packet>)
    requires Acts(s, left, ev, e', pkts)
    ensures Goes(s, left, ev, StateAfter(s, left, ev, e', pkts)) && Step(s, StateAfter(s, left, ev, e', pkts))
  {
    hide Does, Cuts;
    var s' := StateAfter(s, left, ev, e', pkts);
    if left {
      assert StepOf(s, ev, s');
    } else {
      assert StepOf(Swap(s), ev, Swap(s'));
    }
  }

  lemma RunMore(r: seq<Sys>, s: Sys)
    requires Run(r) && Step(r[|r| - 1], s)
    ensures Run(r + [s])
  {
    hide Step, Starts;
    var q := r + [s];
    forall i | 0 <= i < |q| - 1
      ensures Step(q[i], q[i + 1])
    {
      if i < |r| - 1 {
        assert Step(r[i], r[i + 1]);
      }
    }
  }

  /** A step keeps the settings of both, and the one's sending numbers are the other's receiving numbers. */
  lemma StepCfg(r: seq<Sys>, s: Sys)
    requires Run(r) && Step(r[|r| - 1], s)
    ensures Run(r + [s]) && s.a.cfg == r[|r| - 1].a.cfg && s.b.cfg == r[|r| - 1].b.cfg
  {
    RunMore(r, s);
    hide Run, Inv, Step;
    RunInv(r + [s], |r| - 1, |r|);
  }

  datatype Timer = REXMT | PERSIST | FAST

  lemma WireMore(ps: seq<Packet>, qs: seq<Packet>, sbase: int, rbase: int)
    ensures AllOnWire(ps + qs, sbase, rbase) == AllOnWire(ps, sbase, rbase) + AllOnWire(qs, sbase, rbase)
  {
  }

  /** All that each has sent is still on its way: the network may deliver any of it at any time. */
  class Link {
    const a: Tcb
    const b: Tcb
    var fromA: seq<Segment>
    var fromB: seq<Segment>
    ghost var run: seq<Sys>

    function Here(left: bool): Tcb {
      if left then a else b
    }

    ghost function Now(): Sys
      requires run != []
      reads this
    {
      run[|run| - 1]
    }

    /** What may reach the left or the right endpoint, on positions. */
    ghost function Inbox(left: bool): seq<Packet>
      requires run != []
      reads this
    {
      if left then Now().fromB else Now().fromA
    }

    ghost predicate Placed()
      reads this, a, b
    {
      run != [] && Run(run) && Now().a == a.Abs() && Now().b == b.Abs()
      && fromA == AllOnWire(Now().fromA, a.sbase, a.rbase) && fromB == AllOnWire(Now().fromB, b.sbase, b.rbase)
    }

    ghost predicate Valid()
      reads this, a, b
    {
      a != b && a.Valid() && b.Valid() && Placed() && OneTimer(a.Control()) && OneTimer(b.Control())
    }

    /** Both just established. */
    constructor (issA: u32, issB: u32, maxseg: nat, wnd: nat, win: nat, hiwat: nat)
      requires maxseg >= 1 && wnd <= 65535 && win <= 65535 && hiwat <= REACH
      ensures Valid() && fresh(this) && fresh(a) && fresh(b) && a.t_state == b.t_state == ESTABLISHED
    {
      a := new Tcb(issA, issB, maxseg, wnd, win, hiwat);
      b := new Tcb(issB, issA, maxseg, wnd, win, hiwat);
      fromA, fromB := [], [];
      new;
      hide Valid, a.Valid, b.Valid;
      run := [Sys(a.Abs(), b.Abs(), [], [], false, false)];
      Begins();
    }

    lemma Begins()
      requires a != b && a.Valid() && a.t_state == ESTABLISHED && a.written == [] && a.Rcvd() == Rcv(0, [], [], [])
      requires b.Valid() && b.t_state == ESTABLISHED && b.written == [] && b.Rcvd() == Rcv(0, [], [], [])
      requires a.una == a.max == b.una == b.max == 0 && a.sbase == b.rbase && b.sbase == a.rbase
      requires OneTimer(a.Control()) && OneTimer(b.Control()) && fromA == fromB == []
      requires run == [Sys(a.Abs(), b.Abs(), [], [], false, false)]
      ensures Valid()
    {
      hide a.Valid, b.Valid, AllOnWire, Fresh, Run;
      Freshly(a);
      Freshly(b);
      SettingsOf(a);
      SettingsOf(b);
      RunBegins(a.Abs(), b.Abs());
      NoneOnWire(a.sbase, a.rbase);
      NoneOnWire(b.sbase, b.rbase);
    }

    /** The run goes on by one step of one endpoint, and the other stays as it is. */
    twostate predicate Took(left: bool, ev: Event)
      reads this, a, b
    {
      old(run) != [] && run != [] && run[..|run| - 1] == old(run) && Goes(old(Now()), left, ev, Now())
    }

    method Note(left: bool, sent: seq<Segment>, ghost ev: Event, ghost pkts: seq<Packet>)
      requires a != b && a.Valid() && b.Valid() && run != [] && Run(run)
      requires Acts(Now(), left, ev, Here(left).Abs(), pkts) && OneTimer(a.Control()) && OneTimer(b.Control())
      requires if left then Now().b == b.Abs() else Now().a == a.Abs()
      requires fromA == AllOnWire(Now().fromA, Now().a.cfg.sbase, Now().a.cfg.rbase)
      requires fromB == AllOnWire(Now().fromB, Now().b.cfg.sbase, Now().b.cfg.rbase)
      requires sent == AllOnWire(pkts, Here(left).sbase, Here(left).rbase)
      modifies this
      ensures Valid() && Took(left, ev)
    {
      hide a.Valid, b.Valid, Run, AllOnWire, Acts, Goes, Cuts, Step;
      ghost var s := Now();
      ghost var s' := StateAfter(s, left, ev, Here(left).Abs(), pkts);
      StateAfterGoes(s, left, ev, Here(left).Abs(), pkts);
      StepCfg(run, s');
      SettingsOf(a);
      SettingsOf(b);
      if left {
        WireMore(s.fromA, pkts, a.sbase, a.rbase);
        fromA := fromA + sent;
      } else {
        WireMore(s.fromB, pkts, b.sbase, b.rbase);
        fromB := fromB + sent;
      }
      run := run + [s'];
      assert run[|run| - 1] == s';
    }

    /** What a method starts from. */
    lemma Starting(left: bool)
      requires Valid()
      ensures a != b && a.Valid() && b.Valid() && run != [] && Run(run) && Now().a == a.Abs() && Now().b == b.Abs()
      ensures OneTimer(a.Control()) && OneTimer(b.Control())
      ensures fromA == AllOnWire(Now().fromA, Now().a.cfg.sbase, Now().a.cfg.rbase)
      ensures fromB == AllOnWire(Now().fromB, Now().b.cfg.sbase, Now().b.cfg.rbase)
    {
      hide a.Valid, b.Valid, Run, AllOnWire;
      SettingsOf(a);
      SettingsOf(b);
      NoneOnWire(Here(left).sbase, Here(left).rbase);
    }

    /** The user writes. */
    method Write(left: bool, bp: Chain)
      requires Valid() && Synchronized(Here(left).t_state) && !UserClosed(Here(left).t_state)
      requires bp != [] && Here(left).t_qsize + |Flatten(bp)| <= REACH
      modifies this, Here(left)
      ensures Valid() && Took(left, Event.Write(Flatten(bp)))
    {
      hide Valid, a.Valid, b.Valid, Run, AllOnWire, Flatten, Goes;
      Starting(left);
      Putq(Here(left), bp);
      NoneOnWire(Here(left).sbase, Here(left).rbase);
      Note(left, [], Event.Write(Flatten(bp)), []);
    }

    method Close(left: bool)
      requires Valid() && Synchronized(Here(left).t_state)
      modifies this, Here(left)
      ensures Valid() && Took(left, Event.Close)
    {
      hide Valid, a.Valid, b.Valid, Run, AllOnWire, Goes;
      Starting(left);
      Usrclosed(Here(left));
      NoneOnWire(Here(left).sbase, Here(left).rbase);
      Note(left, [], Event.Close, []);
    }

    method Read(left: bool, credits: nat)
      requires Valid() && Synchronized(Here(left).t_state)
      modifies this, Here(left)
      ensures Valid() && Took(left, Event.Read(credits))
    {
      hide Valid, a.Valid, b.Valid, Run, AllOnWire, Goes, Dequeued;
      Starting(left);
      Receive(Here(left), credits);
      NoneOnWire(Here(left).sbase, Here(left).rbase);
      Note(left, [], Event.Read(credits), []);
    }

    /** A timer that runs goes off.  The persist timer never finds the retransmit timer running beside it. */
    method Tick(left: bool, timer: Timer) returns (ghost ev: Event)
      requires Valid() && Synchronized(Here(left).t_state)
      requires (timer == REXMT ==> Here(left).rexmt) && (timer == PERSIST ==> Here(left).persist)
      modifies this, Here(left)
      ensures Valid() && ev.Tick? && Took(left, ev)
    {
      hide Valid, a.Valid, b.Valid, Run, AllOnWire, Goes, Ticked;
      Starting(left);
      match timer {
        case REXMT => ev := Rexmt(Here(left));
        case PERSIST => ev := Persist(Here(left));
        case FAST => ev := Fasttimo(Here(left));
      }
      NoneOnWire(Here(left).sbase, Here(left).rbase);
      Note(left, [], ev, []);
    }

    /** `yhtp_output`: what it sends is on the wire. */
    method Send(left: bool)
      requires Valid() && Synchronized(Here(left).t_state)
      modifies this, Here(left)
      ensures Valid() && Took(left, Call)
    {
      hide Valid, a.Valid, b.Valid, Run, AllOnWire, Goes, Outputs;
      Starting(left);
      ghost var e := Here(left).Abs();
      var sent, pkts := Output(Here(left));
      OutputsTimer(e, Idle(e), Here(left).Abs(), pkts);
      Note(left, sent, Call, pkts);
    }

    /** A segment off the wire. */
    method Deliver(left: bool, k: nat, credits: nat)
      requires Valid() && Synchronized(Here(left).t_state) && k < |Inbox(left)|
      requires Near30(Here(left).Abs(), Inbox(left)[k]) && Here(left).rnxt - Here(left).adv <= 2 * REACH
      modifies this, Here(left)
      ensures Valid() && Took(left, Arrive(old(Inbox(left)[k]), credits))
    {
      hide Valid, a.Valid, b.Valid, Run, AllOnWire, Inputs, Goes, Near30;
      Starting(left);
      Arrival(left, k);
      var ti := if left then fromB[k] else fromA[k];
      ghost var p := Inbox(left)[k];
      ghost var e := Here(left).Abs();
      var sent, pkts := Uinput(Here(left), ti, credits, p);
      InputsTimer(e, p, credits, Here(left).Abs(), pkts);
      Note(left, sent, Arrive(p, credits), pkts);
    }

    lemma Arrival(left: bool, k: nat)
      requires Valid() && k < |Inbox(left)| && Near30(Here(left).Abs(), Inbox(left)[k])
      ensures |fromA| == |Now().fromA| && |fromB| == |Now().fromB|
      ensures Arrives(Here(left), if left then fromB[k] else fromA[k], Inbox(left)[k])
    {
      hide a.Valid, b.Valid, Run, Step;
      SettingsOf(a);
      SettingsOf(b);
      RunInv(run, |run| - 1, |run| - 1);
    }

    // ----- what the runs say of the fields

    /** The run with the left or the right endpoint first. */
    ghost function Seen(left: bool): seq<Sys>
      reads this
    {
      if left then run else Swapped(run)
    }

    lemma SeenRun(left: bool)
      requires Valid()
      ensures var r, n := Seen(left), |Seen(left)| - 1;
              r != [] && Run(r) && r[n].a == Here(left).Abs() && r[n].b == Here(!left).Abs()
              && Here(left).sbase == Here(!left).rbase
              && (r[n].cutB <==> if left then Now().cutB else Now().cutA)
    {
      hide a.Valid, b.Valid, Run, Step;
      SwapRun(run);
      SettingsOf(a);
      SettingsOf(b);
      RunInv(run, |run| - 1, |run| - 1);
    }

    /** The bytes that a user has got, with those that wait for him, are the first that the other user has written,
        and `rcv_nxt` is the number of the next. */
    lemma Delivered(left: bool)
      requires Valid()
      ensures var x, y := Here(left), Here(!left);
              var got := x.up + Flatten(x.t_qfirst);
              got <= y.written && x.rcv_nxt == Wrap(y.sbase + |got| + if FinRcvd(x.t_state) then 1 else 0)
    {
      hide Flatten, Run, a.Valid, b.Valid, Swapped;
      SeenRun(!left);
      DeliveredIsPrefix(Seen(!left), |Seen(!left)| - 1);
      Extents(Here(left));
    }

    /** What has gone from the queue to send from has been received, unless a FIN was cut. */
    lemma Released(left: bool)
      requires Valid() && !(if left then Now().cutB else Now().cutA)
      ensures var x, y := Here(left), Here(!left);
              |x.written| - x.t_qsize <= |y.up + Flatten(y.t_qfirst)|
    {
      hide Flatten, Run, a.Valid, b.Valid, Swapped;
      SeenRun(left);
      SequenceOrder(Seen(left), |Seen(left)| - 1);
      AckedIsReceived(Seen(left), |Seen(left)| - 1);
      Extents(Here(left));
    }

    /** In 32 bits, too, `snd_una <= snd_nxt <= snd_max`, and nothing counts as acknowledged that the other endpoint
        has not counted. */
    lemma Ordered(left: bool)
      requires Valid()
      ensures var x, y := Here(left), Here(!left);
              SeqLeq(x.snd_una, x.snd_nxt) && SeqLeq(x.snd_nxt, x.snd_max) && SeqLeq(x.snd_una, y.rcv_nxt)
    {
      hide Run, a.Valid, b.Valid, Wrap, Sub, Swapped;
      var x, y := Here(left), Here(!left);
      CountedNear(left);
      Extents(x);
      Extents(y);
      Compare(x.sbase + x.una, x.sbase + x.nxt);
      Compare(x.sbase + x.nxt, x.sbase + x.max);
      Compare(x.sbase + x.una, y.rbase + y.rnxt);
    }

    lemma CountedNear(left: bool)
      requires Valid()
      ensures var x, y := Here(left), Here(!left);
              x.una <= y.rnxt <= x.una + REACH + 1 && x.sbase == y.rbase
    {
      hide Run, a.Valid, b.Valid, Swapped;
      SeenRun(left);
      SequenceOrder(Seen(left), |Seen(left)| - 1);
      CountedIsSent(Seen(left), |Seen(left)| - 1);
      Extents(Here(left));
    }
  }
}
