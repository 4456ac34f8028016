/** The control block of an endpoint from the moment its connection is established.

    The C fields hold 32-bit numbers.  Beside each stands a ghost position: data byte k of a stream is
    at position k, and a FIN takes the position after the last byte.  A position p of the stream that
    an endpoint sends is `Wrap(sbase + p)` on the wire; of the stream that it receives, `Wrap(rbase + p)`. */
module TcpTcb {
  import opened Bytes
  import opened TcpSeq
  import opened TcpChain
  import opened TcpReass

  // ----- states

  const CLOSED := 0
  const ESTABLISHED := 4
  const CLOSE_WAIT := 5
  const FIN_WAIT_1 := 6
  const CLOSING := 7
  const LAST_ACK := 8
  const FIN_WAIT_2 := 9
  const TIME_WAIT := 10

  predicate HaveRcvdFin(s: nat) {
    s == CLOSE_WAIT || s == CLOSING || s == LAST_ACK || s == TIME_WAIT
  }

  predicate FinRcvd(s: nat) {
    HaveRcvdFin(s) || s == CLOSED
  }

  /** The user has closed: `yhtp_outflags` asks for a FIN, or the FIN has been acknowledged. */
  predicate SendsFin(s: nat) {
    s == FIN_WAIT_1 || s == CLOSING || s == LAST_ACK
  }

  predicate UserClosed(s: nat) {
    SendsFin(s) || s == FIN_WAIT_2 || s == TIME_WAIT
  }

  predicate Synchronized(s: nat) {
    ESTABLISHED <= s <= TIME_WAIT
  }

  /** How far ahead of `rcv_nxt` or `snd_una` anything in use may lie. */
  const REACH := 0x1000_0000

  // ----- queued segments on the wire

  datatype Seg = Seg(seqno: u32, data: seq<byte>, fin: bool)

  function Wire(h: Held, base: int): Seg {
    Seg(Wrap(base + h.pos), h.data, h.flag)
  }

  function WireAll(held: seq<Held>, base: int): (r: seq<Seg>)
    ensures |r| == |held|
  {
    seq(|held|, i requires 0 <= i < |held| => Wire(held[i], base))
  }

  /** What has been received, as the theorems see it: the next position, the segments out of order,
      the bytes gone upstream and the messages waiting to go. */
  datatype Rcv = Rcv(nxt: int, held: seq<Held>, up: seq<byte>, iq: seq<seq<byte>>)

  ghost predicate Reaches(held: seq<Held>, nxt: int) {
    forall i :: 0 <= i < |held| ==> held[i].End() <= nxt + REACH
  }

  /** Nothing is left in the queue that could be presented. */
  ghost predicate Settled(nxt: int, held: seq<Held>) {
    held == [] || held[0].pos != nxt
  }

  ghost predicate NoEmpty(iq: seq<seq<byte>>) {
    forall i :: 0 <= i < |iq| ==> iq[i] != []
  }

  /** Messages handed over in order: upstream while nothing waits and there is room for `credits` of
      them, behind the others after that.  Empty ones vanish. */
  function SendUp(msgs: seq<seq<byte>>, up: seq<byte>, iq: seq<seq<byte>>, credits: nat): (seq<byte>, seq<seq<byte>>)
    decreases |msgs|
  {
    if msgs == [] then (up, iq)
    else if msgs[0] == [] then SendUp(msgs[1..], up, iq, credits)
    else if iq == [] && credits > 0 then SendUp(msgs[1..], up + msgs[0], iq, credits - 1)
    else SendUp(msgs[1..], up, iq + [msgs[0]], credits)
  }

  /** What waits goes up while there is room for `credits` messages. */
  function Dequeued(r: Rcv, credits: nat): Rcv {
    var n := if credits < |r.iq| then credits else |r.iq|;
    r.(up := r.up + Flatten(r.iq[..n]), iq := r.iq[n..])
  }

  /** `yhtp_reass` on an established connection whose user still receives. */
  function Reassembled(r: Rcv, sg: Held, credits: nat): (Rcv, bool) {
    var d := Drain(r.nxt, Insert(r.held, sg));
    var (up, iq) := SendUp(d.msgs, r.up, r.iq, credits);
    (Rcv(d.nxt, d.rest, up, iq), d.flag)
  }

  /** Nothing is lost, made up or put out of order between the queue and the user. */
  lemma {:induction false} SendUpFacts(msgs: seq<seq<byte>>, up: seq<byte>, iq: seq<seq<byte>>, credits: nat)
    requires NoEmpty(iq)
    ensures var (up', iq') := SendUp(msgs, up, iq, credits);
            up' + Flatten(iq') == up + Flatten(iq) + Flatten(msgs) && NoEmpty(iq') && up <= up'
    decreases |msgs|
  {
    if msgs != [] {
      var m := msgs[0];
      if m == [] {
        SendUpFacts(msgs[1..], up, iq, credits);
        assert Flatten(msgs) == Flatten(msgs[1..]);
      } else if iq == [] && credits > 0 {
        SendUpFacts(msgs[1..], up + m, iq, credits - 1);
        assert up + m + Flatten(iq) + Flatten(msgs[1..]) == up + Flatten(iq) + Flatten(msgs);
      } else {
        SendUpFacts(msgs[1..], up, iq + [m], credits);
        FlattenAppend(iq, [m]);
        assert Flatten([m]) == m + Flatten([]) == m;
        assert up + (Flatten(iq) + m) + Flatten(msgs[1..]) == up + Flatten(iq) + (m + Flatten(msgs[1..]));
      }
    }
  }

  // ----- an endpoint, on positions

  /** The sending side.  `wl1` and `wl2` stay wire numbers: they are only ever compared with numbers off
      the wire. */
  datatype Snd = Snd(una: int, nxt: int, max: int, sentfin: bool, wnd: nat, cwnd: nat, ssthresh: nat,
                     maxwnd: nat, wl1: u32, wl2: u32, dupacks: nat)

  /** Flags, and whether a timer runs. */
  datatype Ctl = Ctl(force: bool, persist: bool, rexmt: bool, acknow: bool, delack: bool)

  datatype Cfg = Cfg(sbase: int, rbase: int, maxseg: nat, hiwat: nat, nodelay: bool, nodelack: bool)

  datatype Endpoint = Endpoint(state: nat, cfg: Cfg, written: seq<byte>, snd: Snd, ctl: Ctl, rcv: Rcv, adv: int)

  /** What is written and not acknowledged. */
  function Unacked(written: seq<byte>, una: int): seq<byte> {
    if 0 <= una <= |written| then written[una..] else []
  }

  function Qsize(e: Endpoint): nat {
    |Unacked(e.written, e.snd.una)|
  }

  function Iqsize(e: Endpoint): nat {
    |Flatten(e.rcv.iq)|
  }

  /** A segment on its way, on positions and on the wire.  ACK is always set. */
  datatype Packet = Packet(pos: int, data: seq<byte>, fin: bool, ack: int, win: nat) {
    function Edge(): int {
      ack + win
    }
  }

  datatype Segment = Segment(seqno: u32, data: seq<byte>, fin: bool, ack: u32, win: nat)

  function OnWire(p: Packet, sbase: int, rbase: int): Segment {
    Segment(Wrap(sbase + p.pos), p.data, p.fin, Wrap(rbase + p.ack), p.win)
  }

  function AllOnWire(ps: seq<Packet>, sbase: int, rbase: int): seq<Segment> {
    seq(|ps|, i requires 0 <= i < |ps| => OnWire(ps[i], sbase, rbase))
  }

  /** The sending side agrees with itself: `snd_una <= snd_nxt <= snd_max`, nothing beyond what is written
      has been sent but a FIN, and that only after the user closed. */
  ghost predicate Sound(e: Endpoint) {
    var s, w := e.snd, |e.written|;
    0 <= s.una <= s.nxt <= s.max && e.cfg.maxseg >= 1
    && (if s.sentfin then s.max == w + 1 else s.max <= w)
    && (s.sentfin ==> UserClosed(e.state) || e.state == CLOSED)
    && (SendsFin(e.state) ==> s.una <= w)
    && (e.state == FIN_WAIT_2 || e.state == TIME_WAIT ==> s.sentfin && s.una == w + 1)
    && e.adv - e.rcv.nxt <= 65535
  }

  /** The receiving fields agree with their positions and with each other. */
  ghost predicate RcvAgrees(rcv_nxt: u32, rnxt: int, rbase: int, segs: seq<Seg>, held: seq<Held>, iqsize: nat,
                            iq: seq<seq<byte>>)
  {
    0 <= rnxt && rcv_nxt == Wrap(rbase + rnxt) && segs == WireAll(held, rbase)
    && Sorted(rnxt, held) && Reaches(held, rnxt) && iqsize == |Flatten(iq)| && NoEmpty(iq)
  }

  /** The queue to send from holds what is not acknowledged. */
  ghost predicate QueueAgrees(snd_una: u32, una: int, sbase: int, wq: seq<Chain>, written: seq<byte>, qsize: nat) {
    snd_una == Wrap(sbase + una) && Messages(wq) && QueueBytes(wq) == Unacked(written, una)
    && qsize == |QueueBytes(wq)| <= REACH
  }

  class Tcb {
    var t_state: nat

    // sending
    var snd_una: u32
    var snd_nxt: u32
    var snd_max: u32
    var snd_wnd: u32
    var snd_cwnd: nat
    var snd_ssthresh: nat
    var max_sndwnd: nat
    var t_maxseg: nat
    var snd_wl1: u32
    var snd_wl2: u32
    var t_qsize: nat
    var wq: seq<Chain>
    var t_force: bool
    var persist: bool
    var rexmt: bool
    var acknow: bool
    var delack: bool
    var sentfin: bool
    var nodelay: bool
    var t_dupacks: nat
    ghost var sbase: int
    ghost var una: int
    ghost var nxt: int
    ghost var max: int
    ghost var written: seq<byte>

    // receiving
    var rcv_nxt: u32
    var rcv_adv: u32
    var rcv_wnd: int
    var seg_next: seq<Seg>
    var t_qfirst: seq<seq<byte>>
    var t_iqsize: nat
    var q_hiwat: nat
    var nodelack: bool
    ghost var rbase: int
    ghost var rnxt: int
    ghost var adv: int
    ghost var held: seq<Held>
    ghost var up: seq<byte>

    ghost function Rcvd(): Rcv
      reads `rnxt, `held, `up, `t_qfirst
    {
      Rcv(rnxt, held, up, t_qfirst)
    }

    ghost function Sending(): Snd
      reads `una, `nxt, `max, `sentfin, `snd_wnd, `snd_cwnd, `snd_ssthresh, `max_sndwnd, `snd_wl1, `snd_wl2, `t_dupacks
    {
      Snd(una, nxt, max, sentfin, snd_wnd, snd_cwnd, snd_ssthresh, max_sndwnd, snd_wl1, snd_wl2, t_dupacks)
    }

    ghost function Control(): Ctl
      reads `t_force, `persist, `rexmt, `acknow, `delack
    {
      Ctl(t_force, persist, rexmt, acknow, delack)
    }

    ghost function Settings(): Cfg
      reads `sbase, `rbase, `t_maxseg, `q_hiwat, `nodelay, `nodelack
    {
      Cfg(sbase, rbase, t_maxseg, q_hiwat, nodelay, nodelack)
    }

    ghost function Abs(): Endpoint
      reads this
    {
      Endpoint(t_state, Settings(), written, Sending(), Control(), Rcvd(), adv)
    }

    ghost predicate RcvValid()
      reads `rcv_nxt, `rnxt, `rbase, `seg_next, `held, `t_iqsize, `t_qfirst
    {
      RcvAgrees(rcv_nxt, rnxt, rbase, seg_next, held, t_iqsize, t_qfirst)
    }

    ghost predicate QueueValid()
      reads `snd_una, `una, `sbase, `wq, `written, `t_qsize
    {
      QueueAgrees(snd_una, una, sbase, wq, written, t_qsize)
    }

    /** What `yhtp_output` does not touch. */
    ghost predicate Fixed()
      reads `rcv_nxt, `rnxt, `rbase, `seg_next, `held, `t_iqsize, `t_qfirst
      reads `snd_una, `una, `sbase, `wq, `written, `t_qsize, `t_state, `q_hiwat
    {
      RcvValid() && QueueValid() && q_hiwat <= REACH
      && (FinRcvd(t_state) || Settled(rnxt, held))
    }

    /** What it moves. */
    ghost predicate Moving()
      reads `sbase, `rbase, `snd_nxt, `nxt, `snd_max, `max, `rcv_adv, `adv, `rnxt
    {
      snd_nxt == Wrap(sbase + nxt) && snd_max == Wrap(sbase + max) && rcv_adv == Wrap(rbase + adv)
      && rnxt - adv <= 4 * REACH
    }

    ghost predicate Valid()
      reads this
    {
      Fixed() && Moving() && Sound(Abs())
    }

    /** A connection just established, nothing sent or received on it. */
    constructor (iss: u32, irs: u32, maxseg: nat, wnd: nat, win: nat, hiwat: nat)
      requires maxseg >= 1 && wnd <= 65535 && win <= 65535 && hiwat <= REACH
      ensures Valid() && t_state == ESTABLISHED && written == [] && Rcvd() == Rcv(0, [], [], [])
      ensures fresh(this) && sbase == iss + 1 && rbase == irs + 1 && una == max == 0 && adv == win
      ensures Control() == Ctl(false, false, false, false, false)
    {
      t_state := ESTABLISHED;
      snd_una, snd_nxt, snd_max := Add(iss, 1), Add(iss, 1), Add(iss, 1);
      snd_wnd, snd_cwnd, snd_ssthresh, max_sndwnd, t_maxseg := wnd, maxseg, 65535, wnd, maxseg;
      snd_wl1, snd_wl2, t_qsize, wq, t_dupacks := irs, Add(iss, 1), 0, [], 0;
      t_force, persist, rexmt, acknow, delack, sentfin, nodelay := false, false, false, false, false, false, false;
      sbase, una, nxt, max, written := iss + 1, 0, 0, 0, [];
      rcv_nxt, rcv_adv, rcv_wnd, seg_next := Add(irs, 1), Add(irs, 1 + win), win, [];
      t_qfirst, t_iqsize, q_hiwat, nodelack := [], 0, hiwat, false;
      rbase, rnxt, adv, held, up := irs + 1, 0, win, [], [];
    }
  }
}
