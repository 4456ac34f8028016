/** A run in which a receiver gets ahead of `snd_max`: the window of its peer is thought to be shut, and the last
    byte goes out on a probe, with a FIN that is not counted. */
module TcpStray {
  import opened Bytes
  import opened TcpSeq
  import opened TcpReass
  import opened TcpTcb
  import opened TcpReceive
  import opened TcpOutput
  import opened TcpInput
  import opened TcpSent
  import opened TcpRun

  /** Just established, with a window of `wnd` to send into. */
  function Established(wnd: nat): Endpoint {
    Endpoint(ESTABLISHED, Cfg(0, 0, 512, 4096, false, false), [], Snd(0, 0, 0, false, wnd, 512, 65535, 0, 0, 0, 0),
             Ctl(false, false, false, false, false), Rcv(0, [], [], []), 0)
  }

  const PROBING := Ctl(true, true, false, false, false)

  lemma EstablishedFresh(wnd: nat)
    ensures Fresh(Established(wnd))
  {
  }

  /** One pass is enough when less than a segment is wanted. */
  lemma OnePass(e: Endpoint) returns (e': Endpoint, pkts: seq<Packet>)
    requires !PlanOf(e).more
    ensures Replies(e, e', pkts) && e'.rcv == e.rcv
  {
    var b, p := Begun(e), PlanOf(e);
    if Due(b, p, Idle(e)) {
      e', pkts := After(b, p).(ctl := After(b, p).ctl.(force := false)), [PacketOf(b, p)];
    } else {
      e', pkts := Rests(b), [];
    }
  }

  /** The peer takes in the byte and counts the FIN. */
  lemma PeerCounts(x: byte) returns (e': Endpoint, pkts: seq<Packet>)
    ensures Inputs(Established(4096), Packet(0, [x], true, 0, 4096), 1, e', pkts) && e'.rcv.nxt == 2
  {
    var e, p := Established(4096), Packet(0, [x], true, 0, 4096);
    assert Flatten([]) == [];
    assert Room(e) == 4096;
    assert Trim(e, p) == Kept(0, [x], true, false);
    var f := DupAcks(e, 0);
    assert AckOf(e, 0, 4096, 1) == Continue(f, false);
    PeerTakes(f, x);
    var t := Kept(0, [x], true, false);
    var g := Received(f, p, t, 1);
    assert g.written == [] && g.snd.una == 0 && g.snd.nxt == 0 && g.cfg == e.cfg;
    assert !PlanOf(g).more;
    e', pkts := OnePass(g);
    hide Outputs;
    assert NeedsReply(f, p, t, false, g);
  }

  lemma PeerTakes(f: Endpoint, x: byte)
    requires f.state == ESTABLISHED && f.rcv == Rcv(0, [], [], [])
    ensures var g := Received(f, Packet(0, [x], true, 0, 4096), Kept(0, [x], true, false), 1);
            g.rcv.nxt == 2 && g.ctl.acknow && g.written == f.written && g.cfg == f.cfg
            && g.snd.una == f.snd.una && g.snd.nxt == f.snd.nxt
  {
    var seqno, ack := Wrap(f.cfg.rbase + 0), Wrap(f.cfg.sbase + 0);
    var w := Windowed(f, seqno, ack, 4096);
    assert w.rcv == f.rcv && w.state == f.state;
    InOrder(w.rcv, Held(0, [x], true), 1);
  }

  /** The sender's side of the run. */
  function Sender(x: byte, i: nat): Endpoint {
    if i == 0 then Established(0)
    else if i == 1 then Established(0).(written := [x])
    else if i == 2 then Established(0).(written := [x], state := FIN_WAIT_1)
    else if i == 3 then Closing(x, 0)
    else After(Closing(x, 0), Plan(0, 1, true, false)).(ctl := Ctl(false, true, false, false, false))
  }

  function Happens(x: byte, i: nat): Event {
    if i == 0 then Write([x])
    else if i == 1 then Event.Close
    else if i == 2 then Tick(false, 512, 65535, PROBING)
    else Call
  }

  function Sends(x: byte, i: nat): seq<Packet> {
    if i < 3 then [] else [Packet(0, [x], true, 0, 4096)]
  }

  lemma SenderDoes(x: byte, i: nat)
    requires i < 4
    ensures Does(Sender(x, i), [], Happens(x, i), Sender(x, i + 1), Sends(x, i))
  {
    hide Outputs;
    StrayFinWitness(x);
    assert [] + [x] == [x];
  }

  function StateAt(x: byte, i: nat): Sys {
    Sys(Sender(x, i), Established(4096), if i < 4 then [] else Sends(x, 3), [], false, false)
  }

  lemma SenderSteps(x: byte, i: nat)
    requires i < 4
    ensures Step(StateAt(x, i), StateAt(x, i + 1))
  {
    hide Does;
    SenderDoes(x, i);
    var s, s' := StateAt(x, i), StateAt(x, i + 1);
    assert !Cuts(s.a, Happens(x, i));
    assert s.fromA + Sends(x, i) == s'.fromA;
    assert Does(s.a, s.fromB, Happens(x, i), s'.a, Sends(x, i));
    assert StepOf(s, Happens(x, i), s');
  }

  lemma LastStep(x: byte, b: Endpoint, pkts: seq<Packet>, s': Sys, ev: Event)
    requires ev == Arrive(Packet(0, [x], true, 0, 4096), 1)
    requires Inputs(Established(4096), ev.p, 1, b, pkts)
    requires s' == Sys(Sender(x, 4), b, Sends(x, 3), pkts, false, Cuts(Established(4096), ev))
    ensures Step(StateAt(x, 4), s')
  {
    hide Inputs, Cuts, Sender;
    var s := StateAt(x, 4);
    assert [] + pkts == pkts;
    assert ev.p in s.fromA;
    assert Does(s.b, s.fromA, ev, b, pkts);
    assert StepOf(Swap(s), ev, Swap(s'));
  }

  lemma Ends(x: byte)
    ensures Starts(StateAt(x, 0)) && Sender(x, 4).snd.max == 1 && !Sender(x, 4).snd.sentfin
    ensures |Sends(x, 3)| == 1 && Sends(x, 3)[0].fin
  {
    EstablishedFresh(0);
    EstablishedFresh(4096);
    StrayFinWitness(x);
  }

  /** `rcv_nxt` is 2 and `snd_max` is 1. */
  lemma StrayRun(x: byte) returns (r: seq<Sys>)
    ensures Run(r)
    ensures var s := r[|r| - 1]; s.b.rcv.nxt == 2 && s.a.snd.max == 1 && AnyFin(s.fromA) && !s.a.snd.sentfin
  {
    hide Step, Starts, Sender, Sends, Inputs, Cuts;
    var b, pkts := PeerCounts(x);
    var ev := Arrive(Packet(0, [x], true, 0, 4096), 1);
    var s' := Sys(Sender(x, 4), b, Sends(x, 3), pkts, false, Cuts(Established(4096), ev));
    LastStep(x, b, pkts, s', ev);
    Ends(x);
    var before := seq(5, i requires 0 <= i < 5 => StateAt(x, i));
    r := before + [s'];
    forall i | 0 <= i < |r| - 1
      ensures Step(r[i], r[i + 1])
    {
      if i < 4 {
        SenderSteps(x, i);
      }
    }
    assert r[0] == StateAt(x, 0) && r[5] == s';
    assert s'.fromA[0].fin;
  }
}
