/** What `yhtp_output` is sure to send, and what it holds back. */
module TcpSend {
  import opened TcpSeq
  import opened TcpReass
  import opened TcpTcb
  import opened TcpOutput

  /** How many bytes from `snd_nxt` on are written and within both windows. */
  function Sendable(e: Endpoint): int {
    Min(|e.written|, e.snd.una + Min(e.snd.wnd, e.snd.cwnd)) - e.snd.nxt
  }

  /** Everything written is within both windows. */
  predicate WindowsCover(e: Endpoint) {
    |e.written| <= e.snd.una + Min(e.snd.wnd, e.snd.cwnd)
  }

  // ----- one pass

  /** What a pass that is not forced finds. */
  lemma PlanIs(e: Endpoint)
    requires Sound(e) && !e.ctl.force && Sendable(e) >= 0
    ensures Begun(e) == e && PlanOf(e).len == Min(Sendable(e), e.cfg.maxseg)
    ensures PlanOf(e).more <==> Sendable(e) > e.cfg.maxseg
    ensures PlanOf(e).fin <==> SendsFin(e.state) && e.snd.nxt + PlanOf(e).len >= |e.written|
    ensures PlanOf(e).off == e.snd.nxt - e.snd.una && e.snd.una + Qsize(e) == |e.written|
  {
    hide Unacked;
    QueueEnd(e);
  }

  lemma AfterPass(e: Endpoint, p: Plan)
    requires !e.ctl.force && Sound(e) && Ready(e, p)
    ensures var a := After(e, p);
            a.snd.nxt >= e.snd.nxt + p.len && (!p.fin ==> a.snd.nxt == e.snd.nxt + p.len)
            && a.snd.una == e.snd.una && a.snd.wnd == e.snd.wnd && a.snd.cwnd == e.snd.cwnd
            && a.written == e.written && a.cfg == e.cfg && a.state == e.state && a.ctl.force == e.ctl.force
            && (p.fin ==> a.snd.sentfin && a.snd.nxt == |e.written| + 1) && (!p.fin ==> a.snd.sentfin == e.snd.sentfin)
            && a.rcv == e.rcv && !a.ctl.acknow && !a.ctl.delack
  {
    QueueEnd(e);
    hide Advertised;
  }

  // ----- whole calls

  /** As many full segments go out as the windows let. */
  lemma {:induction false} SendsFull(e: Endpoint, idle: bool, e': Endpoint, pkts: seq<Packet>, k: nat)
    requires Sound(e) && !e.ctl.force && Outputs(e, idle, e', pkts) && 0 <= k * e.cfg.maxseg <= Sendable(e)
    ensures e'.snd.nxt >= e.snd.nxt + k * e.cfg.maxseg
    decreases |pkts|
  {
    hide PacketOf, UpdateDue, Sound, Ready, After, PlanOf, Begun, Rests, SendsFin;
    var b, p, m := Begun(e), PlanOf(e), e.cfg.maxseg;
    MaxsegIs(e);
    PlanIs(e);
    BegunReady(e);
    RestsKeeps(e);
    if k > 0 {
      OneLess(k, m);
    }
    if Due(b, p, idle) {
      AfterPass(b, p);
      AfterSound(b, p);
      if p.more {
        ReadyMore(b, p);
        SendsFull(After(b, p), idle, e', pkts[1..], if k > 0 then k - 1 else 0);
      } else if k > 1 {
        OneLess(k - 1, m);
      }
    }
  }

  lemma OneLess(k: int, m: int)
    requires k >= 1 && m >= 1
    ensures k * m == (k - 1) * m + m >= m && (k - 1) * m >= 0
  {
  }

  /** All there is goes out when nothing is outstanding or small segments are not to be delayed; and a FIN that has
      not gone out yet, once nothing is left before it. */
  lemma {:induction false} SendsAll(e: Endpoint, idle: bool, e': Endpoint, pkts: seq<Packet>)
    requires Sound(e) && !e.ctl.force && Outputs(e, idle, e', pkts) && Sendable(e) >= 0
    ensures (idle || e.cfg.nodelay) && WindowsCover(e) ==> e'.snd.nxt >= |e.written|
    ensures SendsFin(e.state) && !e.snd.sentfin && WindowsCover(e) ==>
              e'.snd.nxt == |e.written| + 1 && e'.snd.sentfin && pkts != [] && pkts[|pkts| - 1].fin
    decreases |pkts|
  {
    hide PacketOf, UpdateDue, Sound, Ready, After, PlanOf, Begun, Rests, SendsFin;
    var b, p, m := Begun(e), PlanOf(e), e.cfg.maxseg;
    PlanIs(e);
    BegunReady(e);
    MaxsegIs(e);
    RestsKeeps(e);
    if Due(b, p, idle) {
      AfterPass(b, p);
      AfterSound(b, p);
      PacketFin(b, p);
      if p.more {
        ReadyMore(b, p);
        SendsAll(After(b, p), idle, e', pkts[1..]);
      }
    }
  }

  lemma MaxsegIs(e: Endpoint)
    requires Sound(e)
    ensures e.cfg.maxseg >= 1
  {
  }

  lemma RestsKeeps(e: Endpoint)
    ensures Rests(e).snd == e.snd
  {
  }

  lemma PacketFin(e: Endpoint, p: Plan)
    ensures PacketOf(e, p).fin == p.fin
  {
  }

  lemma ReadyMore(e: Endpoint, p: Plan)
    requires Ready(e, p) && p.more
    ensures !p.fin && p.len == e.cfg.maxseg
  {
  }

  // ----- the first segment

  /** A reason for data to go out at once: the segment is full, or all there is and nothing is outstanding (or small
      segments are not to be delayed), or half of the largest window the peer has offered, or sent before. */
  predicate WorthSending(e: Endpoint, idle: bool) {
    Sendable(e) >= e.cfg.maxseg || ((idle || e.cfg.nodelay) && WindowsCover(e)) || Sendable(e) >= e.snd.maxwnd / 2
    || e.snd.nxt < e.snd.max
  }

  ghost predicate DataAt(p: Packet, e: Endpoint, n: int) {
    p.pos == e.snd.nxt && 0 <= e.snd.nxt && n > 0 && e.snd.nxt + n <= |e.written|
    && p.data == e.written[e.snd.nxt..e.snd.nxt + n]
  }

  lemma FirstPacket(e: Endpoint, p: Plan)
    requires Sound(e) && Ready(e, p) && p.len > 0
    ensures var q := PacketOf(e, p);
            e.snd.nxt + p.len <= |e.written| && 0 <= e.snd.nxt
            && q.data == e.written[e.snd.nxt..e.snd.nxt + p.len]
            && (e.snd.nxt < e.snd.max || !e.snd.sentfin ==> q.pos == e.snd.nxt)
  {
    QueueEnd(e);
    assert Unacked(e.written, e.snd.una)[p.off..p.off + p.len]
        == e.written[e.snd.una + p.off..e.snd.una + p.off + p.len];
  }

  /** The reasons for a call to send anything besides data. */
  predicate OtherReason(e: Endpoint) {
    e.ctl.acknow || UpdateDue(e) || SendsFin(e.state)
  }

  /** With something to send: it is sent from `snd_nxt` on, as much as a segment holds, when it is worth sending;
      and when it is not, and there is no other reason to send, nothing is. */
  lemma FirstSegment(e: Endpoint, idle: bool, e': Endpoint, pkts: seq<Packet>)
    requires Sound(e) && !e.ctl.force && Outputs(e, idle, e', pkts) && Sendable(e) > 0
    ensures WorthSending(e, idle) ==> pkts != [] && DataAt(pkts[0], e, Min(Sendable(e), e.cfg.maxseg))
    ensures !WorthSending(e, idle) && !OtherReason(e) ==> pkts == []
  {
    PlanIs(e);
    BegunReady(e);
    FirstPacket(e, PlanOf(e));
    FirstDue(e, idle);
    hide PacketOf, Due, Sound, Ready, After, PlanOf, Begun, Rests, OtherReason;
  }

  lemma FirstDue(e: Endpoint, idle: bool)
    requires Sound(e) && !e.ctl.force && Sendable(e) > 0
    ensures WorthSending(e, idle) ==> Due(Begun(e), PlanOf(e), idle)
    ensures !WorthSending(e, idle) && !OtherReason(e) ==> !Due(Begun(e), PlanOf(e), idle)
    ensures !e.snd.sentfin || e.snd.nxt < e.snd.max
  {
    PlanIs(e);
    hide UpdateDue, Qsize;
  }

  // ----- forced calls

  /** A forced call with nothing beyond what is acknowledged on its way sends at least the first byte that is not
      acknowledged; into a shut window, that byte alone. */
  lemma ProbeSent(e: Endpoint, idle: bool, e': Endpoint, pkts: seq<Packet>)
    requires Sound(e) && e.ctl.force && e.snd.nxt == e.snd.una < |e.written| && Outputs(e, idle, e', pkts)
    ensures var win := Min(e.snd.wnd, e.snd.cwnd);
            pkts != [] && DataAt(pkts[0], e, Min(Min(|e.written| - e.snd.una, Max(win, 1)), e.cfg.maxseg))
            && (win == 0 ==> |pkts| == 1)
  {
    BegunReady(e);
    ProbePlan(e, idle);
    FirstPacket(Begun(e), PlanOf(e));
    hide PacketOf, Due, Sound, Ready, After, PlanOf, Begun, Rests;
  }

  lemma ProbePlan(e: Endpoint, idle: bool)
    requires Sound(e) && e.ctl.force && e.snd.nxt == e.snd.una < |e.written|
    ensures Due(Begun(e), PlanOf(e), idle) && Begun(e).snd == e.snd && Begun(e).written == e.written
    ensures PlanOf(e).len
         == Min(Min(|e.written| - e.snd.una, Max(Min(e.snd.wnd, e.snd.cwnd), 1)), e.cfg.maxseg) > 0
    ensures Min(e.snd.wnd, e.snd.cwnd) == 0 ==> !PlanOf(e).more
    ensures !e.snd.sentfin || e.snd.nxt < e.snd.max
  {
    QueueEnd(e);
    hide UpdateDue;
  }

  // ----- acknowledgments

  /** An acknowledgment that is owed at once goes out; and a call that sends anything leaves none owed, whether at
      once or later.  All that is sent acknowledges all that has been received. */
  lemma {:induction false} AckSent(e: Endpoint, idle: bool, e': Endpoint, pkts: seq<Packet>)
    requires Outputs(e, idle, e', pkts)
    ensures e.ctl.acknow ==> pkts != []
    ensures pkts != [] ==> !e'.ctl.acknow && !e'.ctl.delack
    ensures forall i :: 0 <= i < |pkts| ==> pkts[i].ack == e.rcv.nxt
    decreases |pkts|
  {
    hide UpdateDue, PlanOf, Advertised, DataDue, SendPos, Transmits, Moved, Remembered, Room;
    var b, p := Begun(e), PlanOf(e);
    if Due(b, p, idle) && p.more {
      AckSent(After(b, p), idle, e', pkts[1..]);
    }
  }

  /** A window that has opened by two segments for a user who has taken everything, or by 35 percent, is made known:
      the segment sent says how far it goes, as far as 16 bits can tell. */
  lemma UpdateSent(e: Endpoint, idle: bool, e': Endpoint, pkts: seq<Packet>)
    requires Sound(e) && Outputs(e, idle, e', pkts) && 0 < e.cfg.hiwat <= 0x1_0000_0000 / 100
    requires var room := e.cfg.hiwat - |Flatten(e.rcv.iq)|;
             var wider := room - (e.adv - e.rcv.nxt);
             room > 0 && wider >= 0
             && ((|Flatten(e.rcv.iq)| == 0 && wider >= 2 * e.cfg.maxseg) || 100 * wider >= 35 * e.cfg.hiwat)
             && e.adv >= e.rcv.nxt
    ensures pkts != []
  {
    UpdateIsDue(e);
    hide PlanOf, PacketOf, After, DataDue, UpdateDue;
  }

  lemma UpdateIsDue(e: Endpoint)
    requires 0 < e.cfg.hiwat <= 0x1_0000_0000 / 100 && e.adv >= e.rcv.nxt
    requires var room := e.cfg.hiwat - |Flatten(e.rcv.iq)|;
             var wider := room - (e.adv - e.rcv.nxt);
             room > 0 && wider >= 0
             && ((|Flatten(e.rcv.iq)| == 0 && wider >= 2 * e.cfg.maxseg) || 100 * wider >= 35 * e.cfg.hiwat)
    ensures UpdateDue(Begun(e))
  {
    var w := Wider(e);
    if 100 * w >= 35 * e.cfg.hiwat {
      assert Wrap(100 * w) == 100 * w;
      AtLeast(100 * w, e.cfg.hiwat, 35);
    }
  }

  lemma AtLeast(n: int, m: int, k: int)
    requires m > 0 && n >= k * m
    ensures n / m >= k
  {
    Divided(n, m);
    Grows(n / m, k, m);
  }

  lemma Divided(n: int, m: int)
    requires m > 0
    ensures n == m * (n / m) + n % m && 0 <= n % m < m
  {
  }

  lemma Grows(x: int, y: int, m: int)
    requires m >= 0
    ensures x < y ==> m * x + m <= m * y
  {
    if x < y {
      Monotone(x + 1, y, m);
      assert m * (x + 1) == m * x + m;
    }
  }

  lemma Monotone(x: int, y: int, m: int)
    requires x <= y && m >= 0
    ensures m * x <= m * y
  {
  }

  // ----- the window advertised, and the timers

  /** All the room there is, unless that is silly, and never less than has been advertised, as far as 16 bits can
      tell. */
  function WindowFor(e: Endpoint): int {
    var room := Max(e.cfg.hiwat - |Flatten(e.rcv.iq)|, 0);
    var silly := room < e.cfg.maxseg && room < e.cfg.hiwat / 4;
    Min(Max(if silly then 0 else room, e.adv - e.rcv.nxt), 65535)
  }

  lemma PassWindow(e: Endpoint, p: Plan)
    ensures PacketOf(Begun(e), p).win == WindowFor(e) && WindowFor(After(Begun(e), p)) == WindowFor(e)
  {
    hide SendPos, Transmits, Moved, Range, Unacked, Wanted, SendWindow, Flatten;
  }

  /** Every segment of a call advertises that window. */
  lemma {:induction false} WindowTold(e: Endpoint, idle: bool, e': Endpoint, pkts: seq<Packet>)
    requires Outputs(e, idle, e', pkts)
    ensures forall i :: 0 <= i < |pkts| ==> pkts[i].win == WindowFor(e)
    decreases |pkts|
  {
    hide Due, PlanOf, PacketOf, After, Begun, Rests, WindowFor;
    var b, p := Begun(e), PlanOf(e);
    PassWindow(e, p);
    if Due(b, p, idle) && p.more {
      WindowTold(After(b, p), idle, e', pkts[1..]);
    }
  }

  lemma TimedRuns(e: Endpoint, p: Plan)
    ensures var a := After(e, p); a.snd.nxt != a.snd.una ==> a.ctl.rexmt || a.ctl.persist
  {
    hide Advertised, SendPos;
  }

  lemma MoreWaits(e: Endpoint, p: Plan)
    requires Sound(e) && p == PlanOf(e) && p.more
    ensures Qsize(After(Begun(e), p)) > 0
  {
    hide Advertised, SendPos;
  }

  lemma RestsTimed(e: Endpoint)
    ensures Qsize(e) > 0 ==> Rests(Begun(e)).ctl.rexmt || Rests(Begun(e)).ctl.persist
  {
  }

  /** Data that waits and is not sent has a timer that will bring it up again, and so has anything outstanding after a
      call that sends. */
  lemma {:induction false} TimerRuns(e: Endpoint, idle: bool, e': Endpoint, pkts: seq<Packet>)
    requires Sound(e) && Outputs(e, idle, e', pkts)
    ensures pkts == [] && Qsize(e) > 0 ==> e'.ctl.rexmt || e'.ctl.persist
    ensures pkts != [] && e'.snd.nxt != e'.snd.una ==> e'.ctl.rexmt || e'.ctl.persist
    decreases |pkts|
  {
    hide Due, PlanOf, PacketOf, After, Begun, Rests, Qsize, Sound, Ready;
    var b, p := Begun(e), PlanOf(e);
    BegunReady(e);
    AfterSound(b, p);
    TimedRuns(b, p);
    RestsTimed(e);
    if Due(b, p, idle) && p.more {
      MoreWaits(e, p);
      TimerRuns(After(b, p), idle, e', pkts[1..]);
    }
  }
}
