/** `yhtp_uinput` for a segment of a synchronized connection that has ACK set and none of SYN, RST and URG. */
module TcpInput {
  import opened Bytes
  import opened TcpSeq
  import opened TcpReass
  import opened TcpTcb
  import opened TcpReceive
  import opened TcpOutput

  // ----- trimming

  /** What trimming leaves: the segment's text, `tiflags & TH_FIN`, and whether an acknowledgment is owed. */
  datatype Trimmed = Rejected | Kept(pos: int, data: seq<byte>, fin: bool, now: bool)

  /** The receive window: the room, but not less than what has been advertised. */
  function RcvWnd(e: Endpoint): int {
    Max(Room(e), e.adv - e.rcv.nxt)
  }

  /** What came before is dropped; a duplicate that is only a FIN too many is still looked at for its ACK. */
  function TrimLeft(nxt: int, p: Packet): Trimmed {
    var todrop := nxt - p.pos;
    if todrop <= 0 then Kept(p.pos, p.data, p.fin, false)
    else if todrop < |p.data| || (todrop == |p.data| && p.fin) then Kept(nxt, p.data[todrop..], p.fin, false)
    else if p.fin && todrop == |p.data| + 1 then Kept(p.pos + |p.data|, [], false, true)
    else Rejected
  }

  /** What lies beyond the window is dropped, and `tiflags` loses FIN. */
  function TrimRight(nxt: int, wnd: int, t: Trimmed): Trimmed {
    if t.Rejected? then t
    else
      var todrop := t.pos + |t.data| - (nxt + wnd);
      if todrop <= 0 then t
      else if todrop < |t.data| then Kept(t.pos, t.data[..|t.data| - todrop], false, t.now)
      else if wnd == 0 && t.pos == nxt then Kept(t.pos, [], false, true)
      else Rejected
  }

  function Trim(e: Endpoint, p: Packet): Trimmed {
    TrimRight(e.rcv.nxt, RcvWnd(e), TrimLeft(e.rcv.nxt, p))
  }

  function Owes(e: Endpoint): Endpoint {
    e.(ctl := e.ctl.(acknow := true))
  }

  // ----- acknowledgment

  datatype Acked =
    | Continue(e: Endpoint, need: bool)
    | DropAfterAck(e: Endpoint)
    | Resend(e: Endpoint, onxt: int)
    | Gone(e: Endpoint)

  const REXMT_THRESH := 3

  function DupAcks(e: Endpoint, n: nat): Endpoint {
    e.(snd := e.snd.(dupacks := n))
  }

  /** The third duplicate: the congestion window closes, and `snd_nxt` goes back to what is missing. */
  function Rewound(e: Endpoint, ack: int): Endpoint {
    var win := Max(Min(e.snd.wnd, e.snd.cwnd) / 2 / Max(e.cfg.maxseg, 1), 2);
    e.(snd := e.snd.(ssthresh := win * e.cfg.maxseg, nxt := ack, cwnd := e.cfg.maxseg, dupacks := REXMT_THRESH),
       ctl := e.ctl.(rexmt := false))
  }

  function OldAck(e: Endpoint, ack: int, win: nat, len: nat): Acked {
    if len == 0 && win == e.snd.wnd && e.ctl.rexmt && ack == e.snd.una then
      if e.snd.dupacks + 1 == REXMT_THRESH then Resend(Rewound(e, ack), e.snd.nxt)
      else Continue(DupAcks(e, e.snd.dupacks + 1), false)
    else Continue(DupAcks(e, 0), false)
  }

  /** The congestion window opens, exponentially up to `snd_ssthresh` and linearly from there. */
  function Opened(s: Snd, maxseg: nat): nat {
    var incr := if s.cwnd > s.ssthresh then Max(maxseg * maxseg / s.cwnd, 1) else maxseg;
    Min(s.cwnd + incr, 65535)
  }

  /** `snd_wnd` has 32 bits and no sign: less than nothing is nearly everything. */
  function Shrunk(wnd: int, k: nat): u32 {
    Wrap(wnd - k)
  }

  function OurFinAcked(e: Endpoint, ack: int): bool {
    e.snd.sentfin && ack == e.snd.max
  }

  /** The congestion window opens, and the retransmit timer stops when nothing is outstanding. */
  function Loosened(e: Endpoint, ack: int): Endpoint {
    e.(snd := e.snd.(dupacks := 0, cwnd := Opened(e.snd, e.cfg.maxseg)),
       ctl := e.ctl.(rexmt := if ack == e.snd.max then false else e.ctl.rexmt || !e.ctl.persist))
  }

  /** What has been acknowledged leaves the queue. */
  function Dropped(e: Endpoint, ack: int): Endpoint {
    var k := Min(Max(ack - e.snd.una, 0), Qsize(e));
    e.(snd := e.snd.(una := ack, nxt := Max(e.snd.nxt, ack), wnd := Shrunk(e.snd.wnd, k)))
  }

  function Taken(e: Endpoint, ack: int): Endpoint {
    Dropped(Loosened(e, ack), ack)
  }

  function Canceled(e: Endpoint): Endpoint {
    e.(ctl := e.ctl.(persist := false, rexmt := false))
  }

  /** What the acknowledgment of a FIN does to the state. */
  function NewState(e: Endpoint, fin: bool, need: bool): Acked {
    if e.state == FIN_WAIT_1 && fin then Continue(e.(state := FIN_WAIT_2), need)
    else if e.state == CLOSING && fin then Continue(Canceled(e.(state := TIME_WAIT)), need)
    else if e.state == LAST_ACK && fin then Gone(e.(state := CLOSED))
    else if e.state == TIME_WAIT then DropAfterAck(e)
    else Continue(e, need)
  }

  function AckOf(e: Endpoint, ack: int, win: nat, len: nat): Acked {
    if ack <= e.snd.una then OldAck(e, ack, win, len)
    else if ack > e.snd.max then DropAfterAck(DupAcks(e, 0))
    else NewState(Taken(e, ack), OurFinAcked(e, ack), ack == e.snd.max)
  }

  // ----- window, text, FIN

  predicate NewWindow(e: Endpoint, seqno: u32, ack: u32, win: nat) {
    SeqLt(e.snd.wl1, seqno)
    || (e.snd.wl1 == seqno && (SeqLt(e.snd.wl2, ack) || (e.snd.wl2 == ack && win > e.snd.wnd)))
  }

  function NoteWindow(e: Endpoint, seqno: u32, ack: u32, win: nat): Endpoint {
    e.(snd := e.snd.(wnd := win, wl1 := seqno, wl2 := ack, maxwnd := Max(e.snd.maxwnd, win)))
  }

  function Windowed(e: Endpoint, seqno: u32, ack: u32, win: nat): Endpoint {
    if NewWindow(e, seqno, ack, win) then NoteWindow(e, seqno, ack, win) else e
  }

  function Counted(e: Endpoint): Endpoint {
    Owes(e.(rcv := e.rcv.(nxt := e.rcv.nxt + 1)))
  }

  function FinState(e: Endpoint): Endpoint {
    if e.state == ESTABLISHED then e.(state := CLOSE_WAIT)
    else if e.state == FIN_WAIT_1 then e.(state := CLOSING)
    else if e.state == FIN_WAIT_2 then Canceled(e.(state := TIME_WAIT))
    else e
  }

  /** The peer's FIN counted. */
  function FinArrived(e: Endpoint): Endpoint {
    FinState(Counted(e))
  }

  /** The acknowledgment of text, at once or delayed. */
  function AckLater(c: Ctl, nodelack: bool): Ctl {
    if nodelack then c.(acknow := true) else c.(delack := true)
  }

  /** The text merged into what has been received. */
  function Merged(e: Endpoint, h: Held, credits: nat): Endpoint {
    e.(rcv := Reassembled(e.rcv, h, credits).0, ctl := AckLater(e.ctl, e.cfg.nodelack))
  }

  /** Reassembly, which reads FIN from the segment and not from `tiflags`. */
  function Text(e: Endpoint, t: Trimmed, flagged: bool, credits: nat): Endpoint {
    if t.Kept? && (t.data != [] || t.fin) && !HaveRcvdFin(e.state) then
      var h := Held(t.pos, t.data, flagged);
      if Reassembled(e.rcv, h, credits).1 then FinArrived(Merged(e, h, credits)) else Merged(e, h, credits)
    else e
  }

  // ----- the whole

  function Restored(e: Endpoint, onxt: int): Endpoint {
    e.(snd := e.snd.(nxt := Max(e.snd.nxt, onxt)))
  }

  ghost predicate Replies(e: Endpoint, m: Endpoint, pkts: seq<Packet>) {
    Outputs(e, Idle(e), m, pkts)
  }

  function Received(e: Endpoint, p: Packet, t: Trimmed, credits: nat): Endpoint {
    Text(Windowed(e, Wrap(e.cfg.rbase + (if t.Kept? then t.pos else 0)), Wrap(e.cfg.sbase + p.ack), p.win),
         t, p.fin, credits)
  }

  function NeedsReply(e: Endpoint, p: Packet, t: Trimmed, need: bool, f: Endpoint): bool {
    need || NewWindow(e, Wrap(e.cfg.rbase + (if t.Kept? then t.pos else 0)), Wrap(e.cfg.sbase + p.ack), p.win)
    || f.ctl.acknow
  }

  /** After the acknowledgment has been looked at. */
  ghost predicate Answers(a: Acked, p: Packet, t: Trimmed, credits: nat, e': Endpoint, pkts: seq<Packet>) {
    match a
    case DropAfterAck(f) => Replies(Owes(f), e', pkts)
    case Resend(f, onxt) => exists m :: Replies(f, m, pkts) && e' == Restored(m, onxt)
    case Gone(f) => e' == f && pkts == []
    case Continue(f, need) =>
      var g := Received(f, p, t, credits);
      if NeedsReply(f, p, t, need, g) then Replies(g, e', pkts) else e' == g && pkts == []
  }

  /** One segment taken in: what becomes of the endpoint, and what it sends. */
  ghost predicate Inputs(e: Endpoint, p: Packet, credits: nat, e': Endpoint, pkts: seq<Packet>) {
    var t := Trim(e, p);
    if t.Rejected? then Replies(Owes(e), e', pkts)
    else Answers(AckOf(if t.now then Owes(e) else e, p.ack, p.win, |t.data|), p, t, credits, e', pkts)
  }

  // ----- what it means

  /** The positions below `rcv_nxt` that are bytes: all of them, but for a FIN that has been counted. */
  function ByteCount(e: Endpoint): int {
    e.rcv.nxt - (if FinRcvd(e.state) then 1 else 0)
  }

  /** What has gone up and what waits to go is the first of the peer's stream; what is queued out of order
      is true to it. */
  ghost predicate Faithful(e: Endpoint, stream: seq<byte>) {
    0 <= ByteCount(e) <= |stream| && e.rcv.up + Flatten(e.rcv.iq) == stream[..ByteCount(e)] && NoEmpty(e.rcv.iq)
    && Sorted(e.rcv.nxt, e.rcv.held) && Reaches(e.rcv.held, e.rcv.nxt) && e.cfg.hiwat <= REACH
    && (!FinRcvd(e.state) ==> AllAgree(e.rcv.held, stream) && Settled(e.rcv.nxt, e.rcv.held))
  }

  /** What an endpoint never takes back. */
  ghost predicate Onward(e: Endpoint, e': Endpoint) {
    e'.cfg == e.cfg && e.written <= e'.written && e'.rcv.nxt >= e.rcv.nxt && e.rcv.up <= e'.rcv.up
    && e'.adv >= e.adv && e'.snd.una >= e.snd.una && e'.snd.max >= e.snd.max
    && (UserClosed(e.state) || e.state == CLOSED ==>
          (UserClosed(e'.state) || e'.state == CLOSED) && e'.written == e.written)
    && (FinRcvd(e.state) ==> FinRcvd(e'.state) && e'.rcv.nxt == e.rcv.nxt
                             && e'.rcv.up + Flatten(e'.rcv.iq) == e.rcv.up + Flatten(e.rcv.iq))
  }

  // ----- trimming keeps the truth

  ghost predicate Fits(t: Trimmed, nxt: int, stream: seq<byte>) {
    t.Kept? && (t.data != [] || t.fin) ==>
      nxt <= t.pos && t.pos + |t.data| <= nxt + REACH
      && (t.data != [] ==> Agrees(Held(t.pos, t.data, t.fin), stream))
  }

  lemma LeftFits(nxt: int, p: Packet, e: Endpoint)
    requires Honest(p, e)
    ensures var t := TrimLeft(nxt, p);
            t.Kept? ==> (t.data != [] || t.fin ==> nxt <= t.pos)
                        && (t.data != [] ==> Agrees(Held(t.pos, t.data, t.fin), e.written))
  {
    var k := nxt - p.pos;
    if 0 < k < |p.data| {
      CutFacts(Held(p.pos, p.data, p.fin), k, e.written);
    }
  }

  lemma RightFits(nxt: int, wnd: int, t: Trimmed, stream: seq<byte>)
    requires 0 <= wnd <= REACH
    requires t.Kept? ==> (t.data != [] || t.fin ==> nxt <= t.pos)
                         && (t.data != [] ==> Agrees(Held(t.pos, t.data, t.fin), stream))
    ensures Fits(TrimRight(nxt, wnd, t), nxt, stream)
  {
    if t.Kept? {
      var k := t.pos + |t.data| - (nxt + wnd);
      if 0 < k < |t.data| {
        assert stream[t.pos..t.pos + |t.data|][..|t.data| - k] == stream[t.pos..t.pos + |t.data| - k];
      }
    }
  }

  lemma TrimFits(e: Endpoint, p: Packet, peer: Endpoint)
    requires Honest(p, peer) && e.cfg.hiwat <= REACH && e.adv - e.rcv.nxt <= 65535
    ensures Fits(Trim(e, p), e.rcv.nxt, peer.written)
  {
    LeftFits(e.rcv.nxt, p, peer);
    RightFits(e.rcv.nxt, RcvWnd(e), TrimLeft(e.rcv.nxt, p), peer.written);
  }

  // ----- reassembly keeps the stream

  ghost predicate InStep(r: Rcv, stream: seq<byte>) {
    0 <= r.nxt <= |stream| && r.up + Flatten(r.iq) == stream[..r.nxt] && NoEmpty(r.iq)
    && Sorted(r.nxt, r.held) && Reaches(r.held, r.nxt) && AllAgree(r.held, stream) && Settled(r.nxt, r.held)
  }

  /** A true segment leaves the bytes received the first of the stream, only more of them. */
  lemma ReassembledInStep(r: Rcv, h: Held, credits: nat, stream: seq<byte>)
    requires InStep(r, stream) && r.nxt <= h.pos && h.End() <= r.nxt + REACH
    requires h.data != [] ==> Agrees(h, stream)
    ensures var (r', fin) := Reassembled(r, h, credits);
            InStep(r', stream) && r'.nxt >= r.nxt && r.up <= r'.up
  {
    hide Sorted, AllAgree, Flatten, Reaches, Settled, Insert, Drain, SendUp;
    var q := Insert(r.held, h);
    InsertFacts(r.nxt, r.held, h, stream);
    QueuedFacts(r.held, r.nxt, h);
    DrainFacts(r.nxt, q, stream);
    DrainKeeps(r.nxt, q);
    var d := Drain(r.nxt, q);
    SendUpFacts(d.msgs, r.up, r.iq, credits);
    assert stream[..d.nxt] == stream[..r.nxt] + stream[r.nxt..d.nxt];
  }

  lemma FinArrivedFaithful(e: Endpoint, stream: seq<byte>)
    requires InStep(e.rcv, stream) && e.cfg.hiwat <= REACH && Sound(e)
    requires e.state == ESTABLISHED || e.state == FIN_WAIT_1 || e.state == FIN_WAIT_2
    ensures Faithful(FinArrived(e), stream) && Sound(FinArrived(e)) && Onward(e, FinArrived(e))
    ensures HaveRcvdFin(FinArrived(e).state)
  {
    hide Flatten, AllAgree;
    SortedPast(e.rcv.nxt, e.rcv.held);
  }

  lemma SortedPast(nxt: int, held: seq<Held>)
    requires Sorted(nxt, held) && Settled(nxt, held)
    ensures Sorted(nxt + 1, held)
  {
    forall i | 0 <= i < |held|
      ensures nxt + 1 <= held[i].pos
    {
      assert i > 0 ==> held[0].End() <= held[i].pos;
    }
  }

  lemma TextFaithful(e: Endpoint, t: Trimmed, flagged: bool, credits: nat, stream: seq<byte>)
    requires Faithful(e, stream) && Sound(e) && Fits(t, e.rcv.nxt, stream) && Synchronized(e.state)
    ensures var f := Text(e, t, flagged, credits);
            Faithful(f, stream) && Sound(f) && Onward(e, f) && f.snd == e.snd
  {
    if t.Kept? && (t.data != [] || t.fin) && !HaveRcvdFin(e.state) {
      hide Flatten, AllAgree, Sorted, Reaches, Settled, Reassembled;
      ReassembledInStep(e.rcv, Held(t.pos, t.data, flagged), credits, stream);
      var h := Held(t.pos, t.data, flagged);
      if Reassembled(e.rcv, h, credits).1 {
        FinArrivedFaithful(Merged(e, h, credits), stream);
      }
    }
  }

  /** Where the text lies, of any segment whatever. */
  lemma TrimBounds(e: Endpoint, p: Packet)
    requires e.cfg.hiwat <= REACH && e.adv - e.rcv.nxt <= 65535
    ensures var t := Trim(e, p);
            t.Kept? && (t.data != [] || t.fin) ==> e.rcv.nxt <= t.pos && t.pos + |t.data| <= e.rcv.nxt + REACH
  {
  }

  // ----- acknowledgment keeps the order

  /** How many bytes leave the queue. */
  function Leaving(e: Endpoint, ack: int): int {
    Min(Max(ack - e.snd.una, 0), Qsize(e))
  }

  lemma TakenWindow(e: Endpoint, ack: int)
    requires e.snd.una < ack <= e.snd.una + REACH && e.snd.wnd < M
    ensures var k := Leaving(e, ack);
            0 <= k <= REACH
            && Taken(e, ack).snd.wnd == if k <= e.snd.wnd then e.snd.wnd - k else M + e.snd.wnd - k
  {
    var k := Leaving(e, ack);
    if k > e.snd.wnd {
      WrapShift(M + e.snd.wnd - k, -1);
    }
  }

  lemma TextSnd(e: Endpoint, t: Trimmed, flagged: bool, credits: nat)
    ensures Text(e, t, flagged, credits).snd == e.snd
  {
    hide Reassembled;
  }

  /** What an acknowledgment of something new does to the send window.  It loses the bytes that leave the queue,
      and goes round past 0 when they are more than it holds, as after a probe into a shut window.  Then it is
      within REACH of 2^32; and it is still that when the segment has been dealt with, so that only the congestion
      window limits what is sent, exactly unless the segment is one to take the window from. */
  lemma WindowWraps(e: Endpoint, p: Packet, t: Trimmed, f: Endpoint, need: bool, credits: nat)
    requires e.snd.una < p.ack <= e.snd.una + REACH && e.snd.wnd < M && p.win <= 65535
    requires t.Kept? && AckOf(e, p.ack, p.win, |t.data|) == Continue(f, need) && p.ack <= e.snd.max
    requires Leaving(e, p.ack) > e.snd.wnd
    ensures var g := Received(f, p, t, credits);
            f.snd.wnd == M + e.snd.wnd - Leaving(e, p.ack) >= M - REACH
            && (g.snd.wnd == f.snd.wnd
                <==> !NewWindow(f, Wrap(f.cfg.rbase + t.pos), Wrap(f.cfg.sbase + p.ack), p.win))
  {
    TakenWindow(e, p.ack);
    ContinueSnd(e, p.ack, p.win, |t.data|);
    hide AckOf, Taken, Leaving, NewWindow, Text;
    var w := Windowed(f, Wrap(f.cfg.rbase + t.pos), Wrap(f.cfg.sbase + p.ack), p.win);
    TextSnd(w, t, p.fin, credits);
  }

  lemma ContinueSnd(e: Endpoint, ack: int, win: nat, len: nat)
    requires e.snd.una < ack <= e.snd.max
    ensures var a := AckOf(e, ack, win, len);
            a.Continue? ==> a.e.snd == Taken(e, ack).snd
  {
    hide Taken;
  }

  /** One byte sent into a shut window, and its acknowledgment on a segment older than the one the window was last
      taken from: the send window is left at 2^32 - 1. */
  lemma WindowWrapsWitness(x: byte)
    ensures var e := Endpoint(ESTABLISHED, Cfg(0, 0, 512, 4096, false, false), [x],
                              Snd(0, 1, 1, false, 0, 512, 65535, 0, 5, 0, 0), Ctl(false, false, false, false, false),
                              Rcv(0, [], [], []), 0);
            var p := Packet(0, [], false, 1, 10);
            var a := AckOf(e, 1, 10, 0);
            Sound(e) && Trim(e, p) == Kept(0, [], false, false) && a.Continue?
            && Received(a.e, p, Trim(e, p), 0).snd.wnd == M - 1
  {
    var e := Endpoint(ESTABLISHED, Cfg(0, 0, 512, 4096, false, false), [x],
                      Snd(0, 1, 1, false, 0, 512, 65535, 0, 5, 0, 0), Ctl(false, false, false, false, false),
                      Rcv(0, [], [], []), 0);
    var p := Packet(0, [], false, 1, 10);
    assert Unacked(e.written, 0) == [x];
    var a := AckOf(e, 1, 10, 0);
    assert a.Continue?;
    assert !SeqLt(5, 0) by {
      assert Sub(5, 0) == 5;
    }
    assert !NewWindow(a.e, 0, 1, 10);
    WindowWraps(e, p, Trim(e, p), a.e, a.need, 0);
  }

  ghost predicate SameRcv(e: Endpoint, f: Endpoint) {
    f.cfg == e.cfg && f.written == e.written && f.rcv == e.rcv && f.adv == e.adv && f.snd.max == e.snd.max
    && (FinRcvd(f.state) <==> FinRcvd(e.state)) && (UserClosed(e.state) ==> UserClosed(f.state) || f.state == CLOSED)
  }

  /** Between what it was and what the peer acknowledges. */
  ghost predicate AckTo(e: Endpoint, f: Endpoint, ack: int) {
    SameRcv(e, f) && Sound(f) && e.snd.una <= f.snd.una && (f.snd.una <= ack || f.snd.una == e.snd.una)
  }

  lemma TakenSound(e: Endpoint, ack: int, need: bool)
    requires Sound(e) && Synchronized(e.state) && e.snd.una < ack <= e.snd.max
    ensures var a := NewState(Taken(e, ack), OurFinAcked(e, ack), need);
            AckTo(e, a.e, ack) && (!a.Gone? ==> Synchronized(a.e.state)) && !a.Resend?
  {
  }

  /** Looking at the acknowledgment keeps the sending side sound. */
  lemma AckSound(e: Endpoint, ack: int, win: nat, len: nat)
    requires Sound(e) && Synchronized(e.state)
    ensures var a := AckOf(e, ack, win, len);
            AckTo(e, a.e, ack) && (!a.Gone? ==> Synchronized(a.e.state))
            && (a.Resend? ==> a.onxt == e.snd.nxt && a.e.snd.una == e.snd.una)
  {
    if e.snd.una < ack <= e.snd.max {
      TakenSound(e, ack, ack == e.snd.max);
    }
  }

  lemma WindowedSound(e: Endpoint, seqno: u32, ack: u32, win: nat)
    requires Sound(e)
    ensures Sound(Windowed(e, seqno, ack, win)) && Windowed(e, seqno, ack, win).snd.una == e.snd.una
    ensures SameRcv(e, Windowed(e, seqno, ack, win)) && Windowed(e, seqno, ack, win).state == e.state
  {
  }

  // ----- the invariant of an endpoint that faces a peer

  /** Its own books are sound, what it has received is the peer's stream, and nothing is acknowledged to it
      that the peer has not received. */
  ghost predicate Good(e: Endpoint, peer: Endpoint) {
    Sound(e) && Faithful(e, peer.written) && e.snd.una <= peer.rcv.nxt
  }

  /** Segments sent on the way from e to m: honest, and with advertised right edges that only move right. */
  ghost predicate SentBetween(e: Endpoint, m: Endpoint, pkts: seq<Packet>) {
    AllHonest(pkts, m) && EdgesFrom(Edge(e), pkts) && (forall i :: 0 <= i < |pkts| ==> pkts[i].Edge() <= Edge(m))
    && Edge(e) <= Edge(m)
  }

  lemma OnwardTrans(e: Endpoint, f: Endpoint, g: Endpoint)
    requires Onward(e, f) && Onward(f, g)
    ensures Onward(e, g) && Edge(e) <= Edge(f)
  {
    hide Flatten;
  }

  lemma SentEarlier(e: Endpoint, f: Endpoint, m: Endpoint, pkts: seq<Packet>)
    requires Onward(e, f) && SentBetween(f, m, pkts)
    ensures SentBetween(e, m, pkts)
  {
    assert Edge(e) <= Edge(f);
  }

  lemma SentNone(e: Endpoint, f: Endpoint)
    requires Onward(e, f)
    ensures SentBetween(e, f, [])
  {
  }

  /** `yhtp_output` keeps the invariant. */
  lemma RepliesGood(e: Endpoint, idle: bool, m: Endpoint, pkts: seq<Packet>, peer: Endpoint)
    requires Good(e, peer) && Outputs(e, idle, m, pkts)
    ensures Good(m, peer) && Onward(e, m) && SentBetween(e, m, pkts)
  {
    hide Sound, Outputs, AllAgree, Flatten, AllHonest, EdgesFrom, Sorted, Reaches, Settled;
    OutputsFacts(e, idle, m, pkts);
  }

  lemma OwesGood(e: Endpoint, peer: Endpoint)
    requires Good(e, peer)
    ensures Good(Owes(e), peer) && Onward(e, Owes(e))
  {
    hide AllAgree, Flatten, Sorted, Reaches, Settled;
  }

  lemma AckGood(e: Endpoint, f: Endpoint, ack: int, peer: Endpoint)
    requires Good(e, peer) && AckTo(e, f, ack) && ack <= peer.rcv.nxt && (e.state == CLOSED ==> f.state == CLOSED)
    ensures Good(f, peer) && Onward(e, f)
  {
    hide AllAgree, Flatten, Sorted, Reaches, Settled, Sound;
  }

  lemma RestoredGood(e: Endpoint, onxt: int, peer: Endpoint)
    requires Good(e, peer) && onxt <= e.snd.max
    ensures Good(Restored(e, onxt), peer) && Onward(e, Restored(e, onxt))
    ensures forall m, pkts :: SentBetween(m, e, pkts) ==> SentBetween(m, Restored(e, onxt), pkts)
  {
    hide AllAgree, Flatten, Sorted, Reaches, Settled;
  }

  lemma ReceivedGood(e: Endpoint, p: Packet, t: Trimmed, credits: nat, peer: Endpoint)
    requires Good(e, peer) && Fits(t, e.rcv.nxt, peer.written) && Synchronized(e.state)
    ensures Good(Received(e, p, t, credits), peer) && Onward(e, Received(e, p, t, credits))
  {
    hide AllAgree, Flatten, Sorted, Reaches, Settled, Sound, Text, Windowed;
    var seqno, ack := Wrap(e.cfg.rbase + (if t.Kept? then t.pos else 0)), Wrap(e.cfg.sbase + p.ack);
    var f := Windowed(e, seqno, ack, p.win);
    WindowedSound(e, seqno, ack, p.win);
    TextFaithful(f, t, p.fin, credits, peer.written);
    AckGood(e, f, f.snd.una, peer);
    OnwardTrans(e, f, Text(f, t, p.fin, credits));
  }

  lemma AnswersGood(e: Endpoint, a: Acked, p: Packet, t: Trimmed, credits: nat, e': Endpoint, pkts: seq<Packet>,
                    peer: Endpoint)
    requires Good(a.e, peer) && Onward(e, a.e) && Answers(a, p, t, credits, e', pkts)
    requires Fits(t, a.e.rcv.nxt, peer.written) && (a.Continue? ==> Synchronized(a.e.state))
    requires a.Resend? ==> a.onxt <= a.e.snd.max
    ensures Good(e', peer) && Onward(e, e') && SentBetween(e, e', pkts)
  {
    hide Good, Onward, SentBetween, Outputs, Fits, Received, NeedsReply, Restored;
    match a
    case DropAfterAck(f) =>
      OwesGood(f, peer);
      RepliesGood(Owes(f), Idle(Owes(f)), e', pkts, peer);
      OnwardTrans(e, f, Owes(f));
      OnwardTrans(e, Owes(f), e');
      SentEarlier(e, Owes(f), e', pkts);
    case Resend(f, onxt) =>
      var m :| Replies(f, m, pkts) && e' == Restored(m, onxt);
      RepliesGood(f, Idle(f), m, pkts, peer);
      OnwardMax(f, m);
      RestoredGood(m, onxt, peer);
      OnwardTrans(e, f, m);
      OnwardTrans(e, m, e');
      SentEarlier(e, f, m, pkts);
    case Gone(f) =>
      SentNone(e, f);
    case Continue(f, need) =>
      var g := Received(f, p, t, credits);
      ReceivedGood(f, p, t, credits, peer);
      OnwardTrans(e, f, g);
      if NeedsReply(f, p, t, need, g) {
        RepliesGood(g, Idle(g), e', pkts, peer);
        OnwardTrans(e, g, e');
        SentEarlier(e, g, e', pkts);
      } else {
        SentNone(e, g);
      }
  }

  lemma OnwardMax(e: Endpoint, f: Endpoint)
    requires Onward(e, f)
    ensures e.snd.max <= f.snd.max
  {
  }

  lemma OnwardSelf(e: Endpoint)
    ensures Onward(e, e)
  {
  }

  lemma SoundOrder(e: Endpoint)
    requires Sound(e)
    ensures e.snd.nxt <= e.snd.max && e.adv - e.rcv.nxt <= 65535
  {
  }

  /** Taking in an honest segment keeps the invariant: in particular the bytes received stay the first of the
      peer's stream, and a FIN that has been counted stays counted. */
  lemma InputsGood(e: Endpoint, p: Packet, credits: nat, e': Endpoint, pkts: seq<Packet>, peer: Endpoint)
    requires Inputs(e, p, credits, e', pkts) && Good(e, peer) && Honest(p, peer) && Synchronized(e.state)
    ensures Good(e', peer) && Onward(e, e') && SentBetween(e, e', pkts)
  {
    hide Onward, SentBetween, Outputs, Fits, Sound, Faithful, Answers, AckOf, Trim, Honest;
    assert e.cfg.hiwat <= REACH && p.ack <= peer.rcv.nxt by { FaithfulHonest(e, p, peer); }
    SoundOrder(e);
    TrimFits(e, p, peer);
    OwesGood(e, peer);
    OnwardSelf(e);
    var t := Trim(e, p);
    if t.Rejected? {
      RepliesGood(Owes(e), Idle(Owes(e)), e', pkts, peer);
      OnwardTrans(e, Owes(e), e');
      SentEarlier(e, Owes(e), e', pkts);
    } else {
      var f := if t.now then Owes(e) else e;
      var a := AckOf(f, p.ack, p.win, |t.data|);
      SoundOrder(f);
      AckSound(f, p.ack, p.win, |t.data|);
      AckGood(f, a.e, p.ack, peer);
      OnwardTrans(e, f, a.e);
      AnswersGood(e, a, p, t, credits, e', pkts, peer);
    }
  }

  lemma FaithfulHonest(e: Endpoint, p: Packet, peer: Endpoint)
    requires Faithful(e, peer.written) && Honest(p, peer)
    ensures e.cfg.hiwat <= REACH && p.ack <= peer.rcv.nxt
  {
  }
}
