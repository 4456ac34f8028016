/** `yhtp_output`: what to send, and the bookkeeping for what has been sent. */
module TcpOutput {
  import opened Bytes
  import opened TcpSeq
  import opened TcpReass
  import opened TcpChain
  import opened TcpTcb

  function Min(a: int, b: int): int {
    if a < b then a else b
  }

  function Max(a: int, b: int): int {
    if a > b then a else b
  }

  // ----- what one pass does

  /** The offset and length of the data, whether FIN goes with it, and whether another pass follows. */
  datatype Plan = Plan(off: int, len: int, fin: bool, more: bool)

  /** The window to send into; a probe may send one byte into a closed one. */
  function SendWindow(e: Endpoint): int {
    var win := Min(e.snd.wnd, e.snd.cwnd);
    if e.ctl.force && win == 0 then 1 else win
  }

  function Wanted(e: Endpoint): int {
    Min(Qsize(e), SendWindow(e)) - (e.snd.nxt - e.snd.una)
  }

  /** Up to `SEQ_LT(tp->snd_nxt + len, ...)`: a shrunken window pulls `snd_nxt` back. */
  function Begun(e: Endpoint): Endpoint {
    var back := Wanted(e) < 0 && SendWindow(e) == 0;
    e.(snd := e.snd.(nxt := if back then e.snd.una else e.snd.nxt),
       ctl := e.ctl.(persist := e.ctl.persist && !(e.ctl.force && Min(e.snd.wnd, e.snd.cwnd) != 0),
                     rexmt := e.ctl.rexmt && !back))
  }

  function PlanOf(e: Endpoint): Plan {
    var len := if Wanted(e) < 0 then 0 else Min(Wanted(e), e.cfg.maxseg);
    Plan(e.snd.nxt - e.snd.una, len,
         SendsFin(e.state) && !(Begun(e).snd.nxt + len < e.snd.una + Qsize(e)),
         Wanted(e) > e.cfg.maxseg)
  }

  /** The receive window. */
  function Room(e: Endpoint): nat {
    Max(e.cfg.hiwat - Iqsize(e), 0)
  }

  /** How much wider the window could be advertised. */
  function Wider(e: Endpoint): int {
    Room(e) - (e.adv - e.rcv.nxt)
  }

  predicate DataDue(e: Endpoint, p: Plan, idle: bool) {
    p.len > 0
    && (p.len == e.cfg.maxseg || ((idle || e.cfg.nodelay) && p.len + p.off >= Qsize(e)) || e.ctl.force
        || p.len >= e.snd.maxwnd / 2 || e.snd.nxt < e.snd.max)
  }

  /** The quotient is one of unsigned numbers, so a window narrower than the advertised one passes too. */
  predicate UpdateDue(e: Endpoint) {
    Room(e) > 0 && ((Iqsize(e) == 0 && Wider(e) >= 2 * e.cfg.maxseg) || Wrap(100 * Wider(e)) / e.cfg.hiwat >= 35)
  }

  predicate Due(e: Endpoint, p: Plan, idle: bool) {
    (p.fin && (!e.snd.sentfin || e.snd.nxt == e.snd.una)) || e.ctl.acknow || DataDue(e, p, idle) || UpdateDue(e)
  }

  /** The advertised window: none rather than a silly one, never taken back, and 16 bits. */
  function Advertised(e: Endpoint): nat {
    var w := if Room(e) < e.cfg.hiwat / 4 && Room(e) < e.cfg.maxseg then 0 else Room(e);
    Min(Max(w, e.adv - e.rcv.nxt), 65535)
  }

  function Range(s: seq<byte>, off: int, len: int): seq<byte> {
    if 0 <= off && 0 <= len && off + len <= |s| then s[off..off + len] else []
  }

  /** Where the segment begins: a FIN sent before is sent in its place again. */
  function SendPos(e: Endpoint, p: Plan): int {
    if p.fin && e.snd.sentfin && e.snd.nxt == e.snd.max then e.snd.nxt - 1 else e.snd.nxt
  }

  function PacketOf(e: Endpoint, p: Plan): Packet {
    Packet(SendPos(e, p), if p.len > 0 then Range(Unacked(e.written, e.snd.una), p.off, p.len) else [], p.fin,
           e.rcv.nxt, Advertised(e))
  }

  /** Not a probe: `snd_nxt` goes over what is sent. */
  predicate Transmits(e: Endpoint) {
    !e.ctl.force || !e.ctl.persist
  }

  /** `len` bytes, and perhaps a FIN, sent from `snd_nxt`. */
  function Moved(s: Snd, transmits: bool, len: int, fin: bool): Snd {
    if transmits then
      var nxt := s.nxt + len + (if fin then 1 else 0);
      s.(nxt := nxt, max := Max(s.max, nxt), sentfin := s.sentfin || fin)
    else
      s.(max := Max(s.max, s.nxt + len))
  }

  /** The retransmit timer, which takes the place of the persist timer. */
  function Timed(c: Ctl, start: bool): Ctl {
    c.(persist := c.persist && !start, rexmt := c.rexmt || start)
  }

  /** What has been advertised is remembered. */
  function Remembered(adv: int, nxt: int, win: nat): int {
    if win > 0 && nxt + win > adv then nxt + win else adv
  }

  /** The segment's place in the sequence space, and the timers. */
  function Accounted(e: Endpoint, len: int, fin: bool): Endpoint {
    var s := Moved(e.snd, Transmits(e), len, fin);
    e.(snd := s, ctl := Timed(e.ctl, Transmits(e) && !e.ctl.rexmt && s.nxt != s.una))
  }

  /** Any acknowledgment owed has gone out. */
  function Told(e: Endpoint, win: nat): Endpoint {
    e.(ctl := e.ctl.(acknow := false, delack := false), adv := Remembered(e.adv, e.rcv.nxt, win))
  }

  function Placed(e: Endpoint, p: Plan): Endpoint {
    e.(snd := e.snd.(nxt := SendPos(e, p)))
  }

  function After(e: Endpoint, p: Plan): Endpoint {
    Told(Accounted(Placed(e, p), p.len, p.fin), Advertised(e))
  }

  /** Nothing to send: data that waits for the window goes to persist state. */
  function Rests(e: Endpoint): Endpoint {
    e.(ctl := e.ctl.(persist := e.ctl.persist || (Qsize(e) > 0 && !e.ctl.rexmt)))
  }

  // ----- all the passes

  /** One call: the segments sent, in order, and what it leaves. */
  ghost predicate Outputs(e: Endpoint, idle: bool, e': Endpoint, pkts: seq<Packet>)
    decreases |pkts|
  {
    var b, p := Begun(e), PlanOf(e);
    if !Due(b, p, idle) then pkts == [] && e' == Rests(b)
    else
      pkts != [] && pkts[0] == PacketOf(b, p)
      && if p.more then Outputs(After(b, p), idle, e', pkts[1..])
         else |pkts| == 1 && e' == After(b, p).(ctl := After(b, p).ctl.(force := false))
  }

  predicate Idle(e: Endpoint) {
    e.snd.max == e.snd.una
  }

  // ----- what it means

  /** A segment tells the truth about what its sender has written and received, and its data counts as sent. */
  ghost predicate Honest(p: Packet, e: Endpoint) {
    0 <= p.pos <= |e.written| + 1 && 0 <= p.ack <= e.rcv.nxt && p.win <= 65535
    && (p.data != [] ==> Agrees(Held(p.pos, p.data, p.fin), e.written) && p.pos + |p.data| <= e.snd.max)
    && (p.fin ==> p.pos + |p.data| == |e.written| && (UserClosed(e.state) || e.state == CLOSED))
  }

  /** The right edge of what has been advertised. */
  function Edge(e: Endpoint): int {
    Max(e.adv, e.rcv.nxt)
  }

  /** Data stays within the window that the peer and the congestion control leave open. */
  ghost predicate InWindow(p: Packet, e: Endpoint) {
    p.data != [] ==> p.pos + |p.data| <= e.snd.una + SendWindow(e)
  }

  /** The plan fits the queue, and its data is what stands at `snd_nxt`. */
  ghost predicate Ready(e: Endpoint, p: Plan) {
    0 <= p.len <= e.cfg.maxseg
    && (p.len > 0 ==> e.snd.nxt == e.snd.una + p.off && 0 <= p.off && p.off + p.len <= Qsize(e))
    && (p.fin ==> SendsFin(e.state) && e.snd.nxt + p.len >= |e.written|)
    && (p.more ==> p.len == e.cfg.maxseg && Transmits(e) && !p.fin)
    && (p.len > 0 ==> p.off + p.len <= SendWindow(e))
  }

  lemma QueueEnd(e: Endpoint)
    requires Sound(e)
    ensures e.snd.una <= |e.written| ==> e.snd.una + Qsize(e) == |e.written|
    ensures e.snd.una > |e.written| ==> Qsize(e) == 0
  {
  }

  lemma BegunReady(e: Endpoint)
    requires Sound(e)
    ensures Sound(Begun(e)) && Ready(Begun(e), PlanOf(e))
  {
    QueueEnd(e);
    assert Qsize(Begun(e)) == Qsize(e);
  }

  lemma RestsSound(e: Endpoint)
    requires Sound(e)
    ensures Sound(Rests(e))
  {
  }

  /** The data of a planned segment is what stands at its position in the stream. */
  lemma PacketData(e: Endpoint, p: Plan)
    requires Sound(e) && Ready(e, p) && p.len > 0
    ensures var q := PacketOf(e, p);
            |q.data| == p.len && Agrees(Held(q.pos, q.data, q.fin), e.written)
                && q.pos + p.len <= e.snd.una + SendWindow(e)
  {
    QueueEnd(e);
    assert Unacked(e.written, e.snd.una)[p.off..p.off + p.len]
        == e.written[e.snd.una + p.off..e.snd.una + p.off + p.len];
  }

  /** A segment with an open window brings `rcv_adv` up to `rcv_nxt` or beyond, whatever the distance was. */
  lemma CaughtUp(e: Endpoint, p: Plan)
    requires PacketOf(e, p).win > 0
    ensures After(e, p).adv >= After(e, p).rcv.nxt + PacketOf(e, p).win
  {
  }

  lemma SentCounts(e: Endpoint, p: Plan)
    requires Sound(e) && Ready(e, p)
    ensures p.len > 0 ==> SendPos(e, p) + p.len <= After(e, p).snd.max
    ensures 0 <= SendPos(e, p) <= |e.written| + 1
    ensures p.fin ==> SendPos(e, p) + p.len == |e.written| && SendsFin(e.state)
  {
    QueueEnd(e);
  }

  /** A planned segment carries the bytes that are at its position, a FIN only after the last of them, and
      fits the window. */
  lemma PacketHonest(e: Endpoint, p: Plan)
    requires Sound(e) && Ready(e, p) && 0 <= e.rcv.nxt
    ensures Honest(PacketOf(e, p), After(e, p))
    ensures InWindow(PacketOf(e, p), e)
  {
    SentCounts(e, p);
    AfterLater(e, p);
    hide Sound, Ready, SendPos, Accounted, Told, Placed, After;
    if p.len > 0 {
      PacketData(e, p);
    }
  }

  lemma AfterSound(e: Endpoint, p: Plan)
    requires Sound(e) && Ready(e, p)
    ensures Sound(After(e, p))
    ensures p.more ==> After(e, p).snd.nxt == e.snd.nxt + p.len <= |e.written|
  {
    QueueEnd(e);
  }

  /** The right edge never moves left: a segment's edge is at or beyond all that was advertised, and what
      it advertises is remembered. */
  lemma EdgeGrows(e: Endpoint, p: Plan)
    requires e.adv - e.rcv.nxt <= 65535
    ensures Edge(e) <= PacketOf(e, p).Edge() <= Edge(After(e, p)) && e.adv <= After(e, p).adv
  {
  }

  /** A probe sends FIN without counting it: FIN is beyond `snd_max`, where its acknowledgment will be refused,
      exactly when the segment is a probe and no FIN has been sent before. */
  lemma FinBeyondMax(e: Endpoint, p: Plan)
    requires Sound(e) && Ready(e, p) && p.fin
    ensures var q := PacketOf(e, p);
            q.pos + p.len + 1 > After(e, p).snd.max <==> !Transmits(e) && !e.snd.sentfin
  {
    QueueEnd(e);
  }

  /** What a call of `yhtp_output` leaves alone, and what it may only raise. */
  ghost predicate Later(e: Endpoint, e': Endpoint) {
    e'.state == e.state && e'.cfg == e.cfg && e'.written == e.written && e'.rcv == e.rcv
    && e'.snd.una == e.snd.una && e'.snd.max >= e.snd.max && e'.adv >= e.adv
  }

  ghost predicate EdgesFrom(lo: int, pkts: seq<Packet>) {
    (forall i :: 0 <= i < |pkts| ==> lo <= pkts[i].Edge())
    && (forall i, j :: 0 <= i < j < |pkts| ==> pkts[i].Edge() <= pkts[j].Edge())
  }

  ghost predicate AllHonest(pkts: seq<Packet>, e: Endpoint) {
    forall i :: 0 <= i < |pkts| ==> Honest(pkts[i], e)
  }

  lemma EdgesCons(lo: int, p: Packet, mid: int, rest: seq<Packet>)
    requires lo <= p.Edge() <= mid && EdgesFrom(mid, rest)
    ensures EdgesFrom(lo, [p] + rest)
  {
  }

  lemma HonestLater(p: Packet, e: Endpoint, e': Endpoint)
    requires Honest(p, e) && Later(e, e')
    ensures Honest(p, e')
  {
  }

  /** A whole call: the invariant of the sending side is kept, every segment is honest, and the advertised
      right edges go up from the last one before to the last one after. */
  lemma {:induction false} OutputsFacts(e: Endpoint, idle: bool, e': Endpoint, pkts: seq<Packet>)
    requires Outputs(e, idle, e', pkts) && Sound(e) && 0 <= e.rcv.nxt
    ensures Sound(e') && Later(e, e') && AllHonest(pkts, e')
    ensures EdgesFrom(Edge(e), pkts) && forall i :: 0 <= i < |pkts| ==> pkts[i].Edge() <= Edge(e')
    ensures Edge(e) <= Edge(e')
    ensures forall i :: 0 <= i < |pkts| ==> InWindow(pkts[i], e)
    decreases |pkts|
  {
    hide Sound, Ready, Honest, InWindow, PlanOf, Due, PacketOf, Told, Accounted;
    var b, p := Begun(e), PlanOf(e);
    BegunReady(e);
    if !Due(b, p, idle) {
      RestsSound(b);
    } else {
      var a := After(b, p);
      AfterSound(b, p);
      PacketHonest(b, p);
      AfterLater(b, p);
      SameWindow(e, p, pkts);
      assert b.adv - b.rcv.nxt <= 65535 by { SoundAdv(b); }
      EdgeGrows(b, p);
      if p.more {
        OutputsFacts(a, idle, e', pkts[1..]);
        assert pkts == [pkts[0]] + pkts[1..];
        EdgesCons(Edge(e), pkts[0], Edge(a), pkts[1..]);
        HonestLater(pkts[0], a, e');
      } else {
        ForceOff(a);
        HonestLater(pkts[0], a, e');
      }
    }
  }

  lemma SameWindow(e: Endpoint, p: Plan, pkts: seq<Packet>)
    ensures var a := After(Begun(e), p);
            forall i :: 0 <= i < |pkts| ==>
              (InWindow(pkts[i], a) <==> InWindow(pkts[i], e))
                  && (InWindow(pkts[i], Begun(e)) <==> InWindow(pkts[i], e))
  {
  }

  lemma SoundAdv(e: Endpoint)
    requires Sound(e)
    ensures e.adv - e.rcv.nxt <= 65535
  {
  }

  lemma ForceOff(e: Endpoint)
    requires Sound(e)
    ensures Sound(e.(ctl := e.ctl.(force := false)))
  {
  }

  lemma AfterLater(e: Endpoint, p: Plan)
    ensures Later(e, After(e, p))
  {
  }

  // ----- the same on the control block

  /** An `int` that holds a 32-bit result. */
  function Signed(x: int): int {
    if Wrap(x) < HALF then Wrap(x) else Wrap(x) - M
  }

  lemma SignedIs(x: int, y: int)
    requires Wrap(x) == Wrap(y) && -HALF <= y < HALF
    ensures Signed(x) == y
  {
    if y < 0 {
      WrapShift(y, 1);
    }
  }

  /** `win - (tp->rcv_adv - tp->rcv_nxt)` */
  lemma WiderWire(win: int, adv: int, nxt: int, base: int)
    requires -HALF <= win - (adv - nxt) < HALF
    ensures Signed(win - Sub(Wrap(base + adv), Wrap(base + nxt))) == win - (adv - nxt)
  {
    SubWrap(base + adv, base + nxt);
    var k := (adv - nxt) / M;
    assert Wrap(adv - nxt) == adv - nxt - M * k;
    WrapShift(win - (adv - nxt), k);
    SignedIs(win - Wrap(adv - nxt), win - (adv - nxt));
  }

  lemma Extents(tp: Tcb)
    requires tp.Valid()
    ensures tp.una <= tp.nxt <= tp.max <= tp.una + tp.t_qsize + 1 && tp.t_qsize <= REACH
    ensures tp.snd_una == Wrap(tp.sbase + tp.una) && tp.snd_nxt == Wrap(tp.sbase + tp.nxt)
            && tp.snd_max == Wrap(tp.sbase + tp.max)
    ensures tp.rcv_adv == Wrap(tp.rbase + tp.adv) && tp.rcv_nxt == Wrap(tp.rbase + tp.rnxt)
    ensures tp.q_hiwat <= REACH && -4 * REACH <= tp.adv - tp.rnxt <= 65535
    ensures tp.t_qsize == Qsize(tp.Abs()) && tp.t_iqsize == Iqsize(tp.Abs()) && tp.t_maxseg >= 1
  {
    QueueEnd(tp.Abs());
  }

  lemma WireFacts(tp: Tcb)
    requires tp.Fixed()
    ensures tp.rcv_nxt == Wrap(tp.rbase + tp.rnxt) && tp.snd_una == Wrap(tp.sbase + tp.una)
    ensures tp.Rcvd().nxt == tp.rnxt
  {
  }

  /** The window; a forced call that finds it open ends persist state. */
  method Window(tp: Tcb) returns (win: int)
    modifies tp`persist
    ensures win == SendWindow(old(tp.Abs()))
    ensures tp.persist == Begun(old(tp.Abs())).ctl.persist
  {
    hide Wanted;
    win := if tp.snd_wnd < tp.snd_cwnd then tp.snd_wnd else tp.snd_cwnd;
    if tp.t_force {
      if win == 0 {
        win := 1;
      } else {
        tp.persist := false;
      }
    }
  }

  /** The length, from the amount wanted. */
  method Measure(tp: Tcb, want: int, win: int) returns (len: int, more: bool)
    modifies tp`snd_nxt, tp`nxt, tp`rexmt
    ensures len == (if want < 0 then 0 else Min(want, tp.t_maxseg)) && (more <==> want > tp.t_maxseg)
    ensures var back := want < 0 && win == 0;
            tp.nxt == (if back then tp.una else old(tp.nxt)) && tp.rexmt == (old(tp.rexmt) && !back)
            && tp.snd_nxt == if back then tp.snd_una else old(tp.snd_nxt)
  {
    len, more := want, false;
    if len < 0 {
      len := 0;
      if win == 0 {
        tp.rexmt := false;
        tp.snd_nxt, tp.nxt := tp.snd_una, tp.una;
      }
    }
    if len > tp.t_maxseg {
      len := tp.t_maxseg;
      more := true;
    }
  }

  /** FIN goes only when all that is queued goes too. */
  method FinGoes(tp: Tcb, len: int) returns (fin: bool)
    requires tp.snd_una == Wrap(tp.sbase + tp.una) && tp.snd_nxt == Wrap(tp.sbase + tp.nxt)
    requires Near(tp.nxt + len, tp.una + tp.t_qsize)
    ensures fin == (SendsFin(tp.t_state) && !(tp.nxt + len < tp.una + tp.t_qsize))
  {
    hide Wrap, Sub;
    AddWrap(tp.sbase + tp.nxt, len);
    AddWrap(tp.sbase + tp.una, tp.t_qsize);
    Compare(tp.sbase + tp.nxt + len, tp.sbase + tp.una + tp.t_qsize);
    fin := SendsFin(tp.t_state);
    if SeqLt(Add(tp.snd_nxt, len), Add(tp.snd_una, tp.t_qsize)) {
      fin := false;
    }
  }

  /** The offset and the length. */
  method Prepare(tp: Tcb) returns (off: int, len: int, more: bool)
    requires tp.Valid()
    modifies tp`snd_nxt, tp`nxt, tp`persist, tp`rexmt
    ensures tp.Sending() == Begun(old(tp.Abs())).snd && tp.Control() == Begun(old(tp.Abs())).ctl
    ensures tp.snd_nxt == Wrap(tp.sbase + tp.nxt)
    ensures var p := PlanOf(old(tp.Abs())); off == p.off && len == p.len && more == p.more
  {
    hide tp.Valid, Qsize, Wrap, Sub, SendWindow;
    Extents(tp);
    ghost var e := tp.Abs();
    Compare(tp.sbase + tp.nxt, tp.sbase + tp.una);
    off := Diff(tp.snd_nxt, tp.snd_una);
    var win := Window(tp);
    var want := (if tp.t_qsize < win then tp.t_qsize else win) - off;
    assert want == Wanted(e);
    hide Wanted, Min;
    len, more := Measure(tp, want, win);
  }

  /** The pass up to the decision. */
  method Begin(tp: Tcb) returns (off: int, len: int, fin: bool, more: bool)
    requires tp.Valid()
    modifies tp`snd_nxt, tp`nxt, tp`persist, tp`rexmt
    ensures tp.Valid() && tp.Abs() == Begun(old(tp.Abs())) && Plan(off, len, fin, more) == PlanOf(old(tp.Abs()))
  {
    hide tp.Fixed, tp.Moving, Qsize, Sound, Wrap, Begun, PlanOf;
    ghost var e := tp.Abs();
    assert Sound(e) && tp.Fixed() && tp.Moving();
    Extents(tp);
    BegunReady(e);
    NearFin(e);
    SameQueue(e);
    TransmitFacts(tp);
    off, len, more := Prepare(tp);
    fin := FinGoes(tp, len);
    MovingAgain(tp);
  }

  lemma NearFin(e: Endpoint)
    requires Sound(e) && Qsize(e) <= REACH
    ensures Near(Begun(e).snd.nxt + PlanOf(e).len, e.snd.una + Qsize(e))
  {
    BegunReady(e);
    QueueEnd(e);
  }

  lemma SameQueue(e: Endpoint)
    ensures Begun(e) == e.(snd := e.snd.(nxt := Begun(e).snd.nxt), ctl := Begun(e).ctl)
    ensures PlanOf(e).fin == (SendsFin(e.state) && !(Begun(e).snd.nxt + PlanOf(e).len < e.snd.una + Qsize(e)))
  {
  }

  /** Sender silly window avoidance. */
  method DecideData(tp: Tcb, off: int, len: int, fin: bool, more: bool, idle: bool) returns (send: bool)
    requires tp.snd_nxt == Wrap(tp.sbase + tp.nxt) && tp.snd_max == Wrap(tp.sbase + tp.max) && Near(tp.nxt, tp.max)
    requires tp.t_qsize == Qsize(tp.Abs())
    ensures send == DataDue(tp.Abs(), Plan(off, len, fin, more), idle)
  {
    Compare(tp.sbase + tp.nxt, tp.sbase + tp.max);
    hide Qsize, Wrap, Sub;
    send := true;
    if len > 0 {
      if len == tp.t_maxseg {
        return;
      }
      if (idle || tp.nodelay) && len + off >= tp.t_qsize {
        return;
      }
      if tp.t_force {
        return;
      }
      if len >= tp.max_sndwnd / 2 {
        return;
      }
      if SeqLt(tp.snd_nxt, tp.snd_max) {
        return;
      }
    }
    send := false;
  }

  /** Whether a window update is worth a segment of its own. */
  method DecideUpdate(tp: Tcb, win: int) returns (send: bool)
    requires tp.rcv_adv == Wrap(tp.rbase + tp.adv) && tp.rcv_nxt == Wrap(tp.rbase + tp.rnxt)
    requires -4 * REACH <= tp.adv - tp.rnxt <= 65535 && tp.q_hiwat <= REACH && tp.t_iqsize == Iqsize(tp.Abs())
    requires win == Room(tp.Abs())
    ensures send == UpdateDue(tp.Abs())
  {
    WiderWire(win, tp.adv, tp.rnxt, tp.rbase);
    hide Iqsize, Wrap, Sub, Signed;
    var recvspace := tp.q_hiwat;
    send := true;
    if win > 0 {
      var adv := Signed(win - Sub(tp.rcv_adv, tp.rcv_nxt));
      if tp.t_iqsize == 0 && adv >= 2 * tp.t_maxseg {
        return;
      }
      if Wrap(100 * adv) / recvspace >= 35 {
        return;
      }
    }
    send := false;
  }

  /** Whether to send. */
  method Decide(tp: Tcb, off: int, len: int, fin: bool, more: bool, idle: bool) returns (win: int, send: bool)
    requires tp.Valid()
    ensures win == Room(tp.Abs()) && send == Due(tp.Abs(), Plan(off, len, fin, more), idle)
  {
    Extents(tp);
    Compare(tp.sbase + tp.nxt, tp.sbase + tp.una);
    hide tp.Valid, Qsize, Iqsize, Wrap, Sub, DataDue, UpdateDue;
    var recvspace := tp.q_hiwat;
    win := recvspace - tp.t_iqsize;
    if win < 0 {
      win := 0;
    }
    if fin && (!tp.sentfin || tp.snd_nxt == tp.snd_una) {
      return win, true;
    }
    if tp.acknow {
      return win, true;
    }
    send := DecideData(tp, off, len, fin, more, idle);
    if !send {
      send := DecideUpdate(tp, win);
    }
  }

  /** The data for the segment, which is always there. */
  method Copy(tp: Tcb, off: int, len: int) returns (data: seq<byte>)
    requires tp.Valid()
    requires len > 0 ==> 0 <= off && off + len <= Qsize(tp.Abs())
    ensures data == if len > 0 then Range(Unacked(tp.written, tp.una), off, len) else []
  {
    hide Flatten, QueueBytes;
    data := [];
    if len > 0 {
      var r := Dupblks(tp.wq, off, len);
      data := if r.Copied? then Flatten(r.blocks) else [];
    }
  }

  /** The advertised window. */
  method Advertise(tp: Tcb, win0: int) returns (win: int)
    requires tp.Valid() && win0 == Room(tp.Abs())
    ensures win == Advertised(tp.Abs())
  {
    Extents(tp);
    hide Qsize, Iqsize, tp.Valid, Wrap, Sub;
    Compare(tp.rbase + tp.adv, tp.rbase + tp.rnxt);
    win := win0;
    if win < tp.q_hiwat / 4 && win < tp.t_maxseg {
      win := 0;
    }
    if win < Diff(tp.rcv_adv, tp.rcv_nxt) {
      win := Diff(tp.rcv_adv, tp.rcv_nxt);
    }
    if win > 65535 {
      win := 65535;
    }
  }

  /** Sequence space put behind `snd_nxt`, and `snd_max` pushed along. */
  method Advance(tp: Tcb, len: int, fin: bool)
    requires tp.snd_nxt == Wrap(tp.sbase + tp.nxt) && tp.snd_max == Wrap(tp.sbase + tp.max)
    requires 0 <= len <= REACH && Near(tp.nxt, tp.max) && Near(tp.nxt + len + 1, tp.max)
    modifies tp`snd_nxt, tp`nxt, tp`snd_max, tp`max, tp`sentfin
    ensures tp.Sending() == Moved(old(tp.Sending()), true, len, fin)
    ensures tp.snd_nxt == Wrap(tp.sbase + tp.nxt) && tp.snd_max == Wrap(tp.sbase + tp.max)
  {
    hide Wrap, Sub;
    if fin {
      AddWrap(tp.sbase + tp.nxt, 1);
      tp.snd_nxt, tp.nxt := Add(tp.snd_nxt, 1), tp.nxt + 1;
      tp.sentfin := true;
    }
    AddWrap(tp.sbase + tp.nxt, len);
    tp.snd_nxt, tp.nxt := Add(tp.snd_nxt, len), tp.nxt + len;
    Compare(tp.sbase + tp.nxt, tp.sbase + tp.max);
    if SeqGt(tp.snd_nxt, tp.snd_max) {
      tp.snd_max, tp.max := tp.snd_nxt, tp.nxt;
    }
  }

  method StartTimer(tp: Tcb)
    requires tp.snd_nxt == Wrap(tp.sbase + tp.nxt) && tp.snd_una == Wrap(tp.sbase + tp.una) && Near(tp.nxt, tp.una)
    modifies tp`rexmt, tp`persist
    ensures tp.Control() == Timed(old(tp.Control()), !old(tp.rexmt) && tp.nxt != tp.una)
  {
    hide Wrap, Sub;
    Compare(tp.sbase + tp.nxt, tp.sbase + tp.una);
    if !tp.rexmt && tp.snd_nxt != tp.snd_una {
      tp.rexmt := true;
      if tp.persist {
        tp.persist := false;
      }
    }
  }

  /** A probe pushes `snd_max` only. */
  method Probe(tp: Tcb, len: int)
    requires tp.snd_nxt == Wrap(tp.sbase + tp.nxt) && tp.snd_max == Wrap(tp.sbase + tp.max)
    requires Near(tp.nxt + len, tp.max)
    modifies tp`snd_max, tp`max
    ensures tp.Sending() == Moved(old(tp.Sending()), false, len, false)
    ensures tp.snd_max == Wrap(tp.sbase + tp.max)
  {
    hide Wrap, Sub;
    AddWrap(tp.sbase + tp.nxt, len);
    Compare(tp.sbase + tp.nxt + len, tp.sbase + tp.max);
    if SeqGt(Add(tp.snd_nxt, len), tp.snd_max) {
      tp.snd_max, tp.max := Add(tp.snd_nxt, len), tp.nxt + len;
    }
  }

  method Transmit(tp: Tcb, len: int, fin: bool)
    requires tp.snd_una == Wrap(tp.sbase + tp.una) && tp.snd_nxt == Wrap(tp.sbase + tp.nxt)
             && tp.snd_max == Wrap(tp.sbase + tp.max)
    requires 0 <= len <= REACH && tp.una - 1 <= tp.nxt <= tp.max <= tp.una + REACH + 1
    modifies tp`snd_nxt, tp`nxt, tp`snd_max, tp`max, tp`sentfin, tp`rexmt, tp`persist
    ensures tp.Sending() == Moved(old(tp.Sending()), true, len, fin)
    ensures tp.Control() == Timed(old(tp.Control()), !old(tp.rexmt) && tp.nxt != tp.una)
    ensures tp.snd_nxt == Wrap(tp.sbase + tp.nxt) && tp.snd_max == Wrap(tp.sbase + tp.max)
  {
    hide Wrap, Timed;
    Advance(tp, len, fin);
    assert tp.nxt == old(tp.nxt) + len + (if fin then 1 else 0);
    StartTimer(tp);
  }

  method Transmitted(tp: Tcb, len: int, fin: bool)
    requires tp.Fixed() && tp.Moving() && Transmits(tp.Abs())
    requires 0 <= len <= REACH && tp.una - 1 <= tp.nxt <= tp.max <= tp.una + REACH + 1
    modifies tp`snd_nxt, tp`nxt, tp`snd_max, tp`max, tp`sentfin, tp`rexmt, tp`persist
    ensures tp.Fixed() && tp.Moving() && tp.Abs() == Accounted(old(tp.Abs()), len, fin)
  {
    hide tp.Fixed, tp.Moving, Wrap, Timed, Moved, Transmits, Accounted;
    ghost var e := tp.Abs();
    TransmitFacts(tp);
    MovedKeeps(tp.Sending(), len, fin);
    Transmit(tp, len, fin);
    AccountedIs(e, len, fin);
    MovingAgain(tp);
  }

  lemma TransmitFacts(tp: Tcb)
    requires tp.Fixed() && tp.Moving()
    ensures tp.snd_una == Wrap(tp.sbase + tp.una) && tp.snd_nxt == Wrap(tp.sbase + tp.nxt)
            && tp.snd_max == Wrap(tp.sbase + tp.max) && tp.rcv_adv == Wrap(tp.rbase + tp.adv)
            && tp.rnxt - tp.adv <= 4 * REACH
  {
  }

  lemma MovingAgain(tp: Tcb)
    requires tp.snd_nxt == Wrap(tp.sbase + tp.nxt) && tp.snd_max == Wrap(tp.sbase + tp.max)
             && tp.rcv_adv == Wrap(tp.rbase + tp.adv) && tp.rnxt - tp.adv <= 4 * REACH
    ensures tp.Moving()
  {
  }

  lemma AccountedIs(e: Endpoint, len: int, fin: bool)
    requires Transmits(e)
    ensures var s := Moved(e.snd, true, len, fin);
            Accounted(e, len, fin) == e.(snd := s, ctl := Timed(e.ctl, !e.ctl.rexmt && s.nxt != s.una))
  {
  }

  method Probed(tp: Tcb, len: int, fin: bool)
    requires tp.Fixed() && tp.Moving() && !Transmits(tp.Abs())
    requires 0 <= len <= REACH && tp.una - 1 <= tp.nxt <= tp.max <= tp.una + REACH + 1
    modifies tp`snd_max, tp`max
    ensures tp.Fixed() && tp.Moving() && tp.Abs() == Accounted(old(tp.Abs()), len, fin)
  {
    MovedKeeps(tp.Sending(), len, fin);
    TimedNot(tp.Control());
    hide Wrap, RcvAgrees, QueueAgrees, Settled, Timed, Moved;
    Probe(tp, len);
  }

  /** The segment's place in the bookkeeping, for a transmission and for a probe. */
  method Account(tp: Tcb, len: int, fin: bool)
    requires tp.Fixed() && tp.Moving()
    requires 0 <= len <= REACH && tp.una - 1 <= tp.nxt <= tp.max <= tp.una + REACH + 1
    modifies tp`snd_nxt, tp`nxt, tp`snd_max, tp`max, tp`sentfin, tp`rexmt, tp`persist
    ensures tp.Fixed() && tp.Moving() && tp.Abs() == Accounted(old(tp.Abs()), len, fin)
  {
    hide tp.Fixed, tp.Moving, Accounted;
    if !tp.t_force || !tp.persist {
      Transmitted(tp, len, fin);
    } else {
      Probed(tp, len, fin);
    }
  }

  lemma MovedKeeps(s: Snd, len: int, fin: bool)
    ensures Moved(s, false, len, fin) == Moved(s, false, len, false)
    ensures Moved(s, false, len, fin).nxt == s.nxt && forall b :: Moved(s, b, len, fin).una == s.una
  {
  }

  lemma TimedNot(c: Ctl)
    ensures Timed(c, false) == c
  {
  }

  /** The segment, but for its bookkeeping. */
  method Build(tp: Tcb, off: int, len: int, fin: bool, more: bool, win0: int) returns (sg: Segment)
    requires tp.Valid() && Ready(tp.Abs(), Plan(off, len, fin, more)) && win0 == Room(tp.Abs())
    modifies tp`snd_nxt, tp`nxt
    ensures sg == OnWire(PacketOf(old(tp.Abs()), Plan(off, len, fin, more)), tp.sbase, tp.rbase)
    ensures tp.Abs() == Placed(old(tp.Abs()), Plan(off, len, fin, more)) && tp.snd_nxt == Wrap(tp.sbase + tp.nxt)
  {
    hide tp.Fixed, Sound, Wrap, Sub, Ready, Advertised, Unacked, Range, Qsize, tp.Settings, tp.Control;
    Extents(tp);
    ReadyFits(tp.Abs(), Plan(off, len, fin, more));
    var data := Copy(tp, off, len);
    var win := Advertise(tp, win0);
    Compare(tp.sbase + tp.nxt, tp.sbase + tp.max);
    if fin && tp.sentfin && tp.snd_nxt == tp.snd_max {
      AddWrap(tp.sbase + tp.nxt, -1);
      tp.snd_nxt, tp.nxt := Add(tp.snd_nxt, -1), tp.nxt - 1;
    }
    sg := Segment(tp.snd_nxt, data, fin, tp.rcv_nxt, win);
  }

  lemma ReadyFits(e: Endpoint, p: Plan)
    requires Ready(e, p)
    ensures p.len > 0 ==> 0 <= p.off && p.off + p.len <= Qsize(e)
  {
  }

  method RememberEdge(tp: Tcb, win: nat)
    requires tp.rcv_nxt == Wrap(tp.rbase + tp.rnxt) && tp.rcv_adv == Wrap(tp.rbase + tp.adv) && win <= 65535
    requires -4 * REACH <= tp.adv - tp.rnxt <= 65535
    modifies tp`rcv_adv, tp`adv
    ensures tp.adv == Remembered(old(tp.adv), tp.rnxt, win) && tp.rcv_adv == Wrap(tp.rbase + tp.adv)
  {
    hide Wrap, Sub;
    AddWrap(tp.rbase + tp.rnxt, win);
    Compare(tp.rbase + tp.rnxt + win, tp.rbase + tp.adv);
    if win > 0 && SeqGt(Add(tp.rcv_nxt, win), tp.rcv_adv) {
      tp.rcv_adv, tp.adv := Add(tp.rcv_nxt, win), tp.rnxt + win;
    }
  }

  lemma RememberedGrows(adv: int, nxt: int, win: nat)
    ensures Remembered(adv, nxt, win) >= adv
  {
  }

  method Recall(tp: Tcb, win: nat)
    requires tp.rcv_nxt == Wrap(tp.rbase + tp.rnxt) && tp.rcv_adv == Wrap(tp.rbase + tp.adv) && win <= 65535
    requires -4 * REACH <= tp.adv - tp.rnxt <= 65535
    modifies tp`rcv_adv, tp`adv, tp`acknow, tp`delack
    ensures tp.Abs() == Told(old(tp.Abs()), win) && tp.rcv_adv == Wrap(tp.rbase + tp.adv) && tp.adv >= old(tp.adv)
  {
    hide Wrap, Remembered, tp.Sending, tp.Settings;
    RememberedGrows(tp.adv, tp.rnxt, win);
    RememberEdge(tp, win);
    tp.acknow, tp.delack := false, false;
  }

  /** The advertised edge remembered; the acknowledgment that was owed has gone out. */
  method Remember(tp: Tcb, win: nat)
    requires tp.Fixed() && tp.Moving() && win <= 65535 && tp.adv - tp.rnxt <= 65535
    modifies tp`rcv_adv, tp`adv, tp`acknow, tp`delack
    ensures tp.Fixed() && tp.Moving() && tp.Abs() == Told(old(tp.Abs()), win)
  {
    hide Wrap, RcvAgrees, QueueAgrees, Settled, Told, tp.Abs, tp.Fixed;
    WireFacts(tp);
    Recall(tp, win);
  }

  /** From `send:` to the end of the pass. */
  method Emit(tp: Tcb, off: int, len: int, fin: bool, more: bool, win0: int) returns (sg: Segment)
    requires tp.Valid() && Ready(tp.Abs(), Plan(off, len, fin, more)) && win0 == Room(tp.Abs())
    modifies tp
    ensures tp.Valid() && tp.Abs() == After(old(tp.Abs()), Plan(off, len, fin, more))
    ensures sg == OnWire(PacketOf(old(tp.Abs()), Plan(off, len, fin, more)), tp.sbase, tp.rbase)
  {
    hide tp.Fixed, tp.Moving, Sound, Ready, Wrap, Accounted, Told, Advertised, OnWire, PacketOf, Unacked, Range,
        Placed, Room;
    ghost var e, p := tp.Abs(), Plan(off, len, fin, more);
    Extents(tp);
    AfterSound(e, p);
    LengthFits(e, p);
    WinOnWire(e, p, tp.sbase, tp.rbase);
    PlacedParts(e, p);
    TransmitFacts(tp);
    sg := Build(tp, off, len, fin, more, win0);
    MovingAgain(tp);
    SameAdv(Placed(e, p), len, fin);
    Account(tp, len, fin);
    Remember(tp, sg.win);
  }

  lemma PlacedParts(e: Endpoint, p: Plan)
    ensures Placed(e, p) == e.(snd := e.snd.(nxt := SendPos(e, p)))
  {
  }

  lemma SameAdv(e: Endpoint, len: int, fin: bool)
    ensures Accounted(e, len, fin).adv == e.adv && Accounted(e, len, fin).rcv == e.rcv
  {
  }

  lemma WinOnWire(e: Endpoint, p: Plan, sbase: int, rbase: int)
    ensures OnWire(PacketOf(e, p), sbase, rbase).win == Advertised(e)
  {
  }

  lemma LengthFits(e: Endpoint, p: Plan)
    requires Sound(e) && Ready(e, p) && Qsize(e) <= REACH
    ensures 0 <= p.len <= REACH && e.snd.una - 1 <= SendPos(e, p) <= e.snd.max <= e.snd.una + REACH + 1
    ensures e.adv - e.rcv.nxt <= 65535 && Advertised(e) <= 65535
  {
    QueueEnd(e);
  }

  // ----- the loop

  /** The passes so far, each of which asked for another. */
  ghost predicate Passes(e: Endpoint, idle: bool, c: Endpoint, pkts: seq<Packet>)
    decreases |pkts|
  {
    if pkts == [] then c == e
    else
      Due(Begun(e), PlanOf(e), idle) && PlanOf(e).more && pkts[0] == PacketOf(Begun(e), PlanOf(e))
      && Passes(After(Begun(e), PlanOf(e)), idle, c, pkts[1..])
  }

  lemma {:induction false} PassesThen(e: Endpoint, idle: bool, c: Endpoint, pkts: seq<Packet>, e': Endpoint,
                                      rest: seq<Packet>)
    requires Passes(e, idle, c, pkts) && Outputs(c, idle, e', rest)
    ensures Outputs(e, idle, e', pkts + rest)
    decreases |pkts|
  {
    hide Due, PlanOf, Begun, PacketOf, After;
    if pkts == [] {
      assert pkts + rest == rest;
    } else {
      PassesThen(After(Begun(e), PlanOf(e)), idle, c, pkts[1..], e', rest);
      assert (pkts + rest)[1..] == pkts[1..] + rest;
    }
  }

  lemma {:induction false} PassesStep(e: Endpoint, idle: bool, c: Endpoint, pkts: seq<Packet>)
    requires Passes(e, idle, c, pkts) && Due(Begun(c), PlanOf(c), idle) && PlanOf(c).more
    ensures Passes(e, idle, After(Begun(c), PlanOf(c)), pkts + [PacketOf(Begun(c), PlanOf(c))])
    decreases |pkts|
  {
    hide Due, PlanOf, Begun, PacketOf, After;
    var p := PacketOf(Begun(c), PlanOf(c));
    if pkts == [] {
      assert pkts + [p] == [p] && [p][1..] == [];
      assert Passes(After(Begun(c), PlanOf(c)), idle, After(Begun(c), PlanOf(c)), []);
    } else {
      PassesStep(After(Begun(e), PlanOf(e)), idle, c, pkts[1..]);
      assert (pkts + [p])[1..] == pkts[1..] + [p];
    }
  }

  lemma LastPass(c: Endpoint, idle: bool)
    ensures !Due(Begun(c), PlanOf(c), idle) ==> Outputs(c, idle, Rests(Begun(c)), [])
    ensures Due(Begun(c), PlanOf(c), idle) && !PlanOf(c).more
            ==> var a := After(Begun(c), PlanOf(c));
                Outputs(c, idle, a.(ctl := a.ctl.(force := false)), [PacketOf(Begun(c), PlanOf(c))])
  {
  }

  /** A pass that asks for another has got further. */
  lemma Progress(c: Endpoint)
    requires Sound(c) && PlanOf(c).more
    ensures c.snd.nxt < After(Begun(c), PlanOf(c)).snd.nxt <= |c.written|
  {
    BegunReady(c);
    AfterSound(Begun(c), PlanOf(c));
  }

  lemma WireAppend(ps: seq<Packet>, p: Packet, sbase: int, rbase: int)
    ensures AllOnWire(ps, sbase, rbase) + [OnWire(p, sbase, rbase)] == AllOnWire(ps + [p], sbase, rbase)
  {
  }

  method Rest(tp: Tcb)
    requires tp.Valid()
    modifies tp`persist
    ensures tp.Valid() && tp.Abs() == Rests(old(tp.Abs()))
  {
    RestsSound(tp.Abs());
    assert tp.t_qsize == Qsize(tp.Abs());
    hide RcvAgrees, QueueAgrees, Settled, Sound, Qsize;
    if tp.t_qsize > 0 && !tp.rexmt && !tp.persist {
      tp.persist := true;
    }
  }

  method Unforce(tp: Tcb)
    requires tp.Valid()
    modifies tp`t_force
    ensures tp.Valid() && tp.Abs() == old(tp.Abs()).(ctl := old(tp.Abs()).ctl.(force := false))
  {
    ForceOff(tp.Abs());
    hide RcvAgrees, QueueAgrees, Settled, Sound;
    tp.t_force := false;
  }

  /** One pass. */
  method Pass(tp: Tcb, idle: bool) returns (send: bool, sg: Segment, more: bool)
    requires tp.Valid()
    modifies tp
    ensures var e := old(tp.Abs());
            var b, p := Begun(e), PlanOf(e);
            tp.Valid() && send == Due(b, p, idle) && more == p.more
            && (send ==> tp.Abs() == After(b, p) && sg == OnWire(PacketOf(b, p), tp.sbase, tp.rbase))
            && (!send ==> tp.Abs() == Rests(b))
  {
    hide tp.Valid, After, Begun, PlanOf, Due, PacketOf, OnWire, Rests, Room, Ready, Sound;
    BegunReadyHere(tp);
    var off, len, fin, win;
    off, len, fin, more := Begin(tp);
    win, send := Decide(tp, off, len, fin, more, idle);
    sg := Segment(0, [], false, 0, 0);
    if send {
      sg := Emit(tp, off, len, fin, more, win);
    } else {
      Rest(tp);
    }
  }

  lemma BegunReadyHere(tp: Tcb)
    requires tp.Valid()
    ensures Ready(Begun(tp.Abs()), PlanOf(tp.Abs()))
  {
    BegunReady(tp.Abs());
  }

  lemma SoundHere(tp: Tcb)
    requires tp.Valid()
    ensures Sound(tp.Abs()) && (tp.Abs().snd.max == tp.Abs().snd.una <==> tp.snd_max == tp.snd_una)
  {
    Extents(tp);
    Compare(tp.sbase + tp.max, tp.sbase + tp.una);
  }

  lemma AfterKeeps(e: Endpoint, p: Plan)
    ensures After(Begun(e), p).cfg == e.cfg && After(Begun(e), p).written == e.written
    ensures Rests(Begun(e)).cfg == e.cfg
  {
  }

  lemma SettingsOf(tp: Tcb)
    ensures tp.Abs().cfg.sbase == tp.sbase && tp.Abs().cfg.rbase == tp.rbase && tp.Abs().written == tp.written
    ensures tp.Abs().snd.nxt == tp.nxt
  {
  }

  /** `yhtp_output`.  The segments go out in this order. */
  method Output(tp: Tcb) returns (sent: seq<Segment>, ghost pkts: seq<Packet>)
    requires tp.Valid() && Synchronized(tp.t_state)
    modifies tp
    ensures tp.Valid() && Outputs(old(tp.Abs()), Idle(old(tp.Abs())), tp.Abs(), pkts)
    ensures sent == AllOnWire(pkts, tp.sbase, tp.rbase)
    ensures tp.sbase == old(tp.sbase) && tp.rbase == old(tp.rbase)
  {
    hide tp.Valid, tp.Abs, After, Begun, PlanOf, Due, PacketOf, OnWire, AllOnWire, Rests, Sound, Passes, Outputs;
    ghost var e := tp.Abs();
    SoundHere(tp);
    SettingsOf(tp);
    var idle := tp.snd_max == tp.snd_una;
    sent, pkts := [], [];
    assert AllOnWire([], tp.sbase, tp.rbase) == [] by { NoneOnWire(tp.sbase, tp.rbase); }
    assert Passes(e, idle, e, []) by { NoPasses(e, idle); }
    while true
      invariant tp.Valid() && Passes(e, idle, tp.Abs(), pkts) && idle == Idle(e)
      invariant tp.sbase == old(tp.sbase) && tp.rbase == old(tp.rbase) && tp.Abs().cfg == e.cfg
      invariant tp.written == e.written && sent == AllOnWire(pkts, tp.sbase, tp.rbase)
      decreases |tp.written| - tp.nxt
    {
      ghost var c := tp.Abs();
      SoundHere(tp);
      SettingsOf(tp);
      LastPass(c, idle);
      AfterKeeps(c, PlanOf(c));
      if PlanOf(c).more {
        Progress(c);
      }
      ghost var pkt := PacketOf(Begun(c), PlanOf(c));
      var send, sg, more := Pass(tp, idle);
      SettingsOf(tp);
      if !send {
        PassesThen(e, idle, c, pkts, tp.Abs(), []);
        assert pkts + [] == pkts;
        return;
      }
      WireAppend(pkts, pkt, tp.sbase, tp.rbase);
      sent := sent + [sg];
      if more {
        PassesStep(e, idle, c, pkts);
        pkts := pkts + [pkt];
      } else {
        Unforce(tp);
        SettingsOf(tp);
        PassesThen(e, idle, c, pkts, tp.Abs(), [pkt]);
        pkts := pkts + [pkt];
        return;
      }
    }
  }

  lemma NoneOnWire(sbase: int, rbase: int)
    ensures AllOnWire([], sbase, rbase) == []
  {
  }

  lemma NoPasses(e: Endpoint, idle: bool)
    ensures Passes(e, idle, e, [])
  {
  }
}
