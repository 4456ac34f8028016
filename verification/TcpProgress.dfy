/** What two endpoints are sure to get done, in every run: segments that arrive are taken in, what may be sent is
    sent, and so bytes move. */
module TcpProgress {
  import opened TcpReass
  import opened TcpTcb
  import opened TcpOutput
  import opened TcpInput
  import opened TcpRun
  import opened TcpSend
  import opened TcpTaken

  /** In every run, a segment from a that arrives at b: exactly its bytes within the window come to those received;
      what is counted is counted without a gap, and is what a has written; and what b answers acknowledges it. */
  lemma ArrivalTaken(r: seq<Sys>, i: nat, p: Packet, credits: nat, b': Endpoint, pkts: seq<Packet>)
    requires Run(r) && i < |r| && Does(r[i].b, r[i].fromA, Arrive(p, credits), b', pkts)
    requires !FinRcvd(r[i].b.state) && p.ack <= r[i].b.snd.max
    ensures var a, b := r[i].a, r[i].b;
            (forall k :: Has(b', k) <==> Has(b, k) || Brings(b, p, k)) && !Has(b', ByteCount(b'))
            && 0 <= ByteCount(b') <= |a.written|
            && b'.rcv.up + Flatten(b'.rcv.iq) == a.written[..ByteCount(b')]
            && (p.pos <= b.rcv.nxt ==> ByteCount(b') >= Min(p.pos + |p.data|, WindowEnd(b)))
            && (b'.rcv != b.rcv ==> pkts != [] || b'.ctl.acknow || b'.ctl.delack)
            && forall j :: 0 <= j < |pkts| ==> pkts[j].ack == b'.rcv.nxt
  {
    RunInv(r, i, i);
    var a, b := r[i].a, r[i].b;
    Facing(r[i], p);
    hide Inv, Run, Inputs, Good, Has, Brings, WindowEnd, Flatten, Honest, FinRcvd, ByteCount;
    TakesIn(b, p, credits, b', pkts, a);
    if p.pos <= b.rcv.nxt {
      MovesOn(b, p, credits, b', pkts, a);
    }
    Answered(b, p, credits, b', pkts);
    InputsGood(b, p, credits, b', pkts, a);
    Prefix(b', a);
  }

  lemma Facing(s: Sys, p: Packet)
    requires Inv(s) && p in s.fromA
    ensures Good(s.b, s.a) && Good(s.a, s.b) && Honest(p, s.a) && s.b.snd.una <= s.b.snd.max && Sound(s.a)
  {
  }

  lemma Prefix(b: Endpoint, a: Endpoint)
    requires Good(b, a)
    ensures 0 <= ByteCount(b) <= |a.written| && b.rcv.up + Flatten(b.rcv.iq) == a.written[..ByteCount(b)]
  {
    hide Flatten, Sorted, Reaches, AllAgree, Settled;
  }

  /** In every run, a call of `yhtp_output` that is not forced sends from `snd_nxt` on as many full segments as both
      windows let; all there is when nothing is outstanding; and what was sent before and is to be sent again. */
  lemma CallSends(r: seq<Sys>, i: nat, a': Endpoint, pkts: seq<Packet>, k: nat)
    requires Run(r) && i < |r| && Does(r[i].a, r[i].fromB, Call, a', pkts)
    requires !r[i].a.ctl.force && 0 <= k * r[i].a.cfg.maxseg <= Sendable(r[i].a) && Sendable(r[i].a) > 0
    ensures var a := r[i].a;
            a'.snd.nxt >= a.snd.nxt + k * a.cfg.maxseg
            && ((Idle(a) || a.cfg.nodelay) && WindowsCover(a) ==> a'.snd.nxt >= |a.written|)
            && (WorthSending(a, Idle(a)) ==> pkts != [] && DataAt(pkts[0], a, Min(Sendable(a), a.cfg.maxseg)))
  {
    RunInv(r, i, i);
    var a := r[i].a;
    assert Sound(a);
    hide Inv, Run, Outputs, Sound, Sendable, WorthSending, DataAt, WindowsCover;
    SendsFull(a, Idle(a), a', pkts, k);
    SendsAll(a, Idle(a), a', pkts);
    FirstSegment(a, Idle(a), a', pkts);
  }

  /** So bytes move: when a calls `yhtp_output` with something worth sending from a position that b has got to, and
      the first segment arrives, b gets all of it that its window has room for. */
  lemma BytesMove(r: seq<Sys>, i: nat, a': Endpoint, pkts: seq<Packet>, credits: nat, b': Endpoint, acks: seq<Packet>)
    requires Run(r) && i + 1 < |r| && Does(r[i].a, r[i].fromB, Call, a', pkts)
    requires r[i + 1] == Sys(a', r[i].b, r[i].fromA + pkts, r[i].fromB, r[i].cutA, r[i].cutB)
    requires var a := r[i].a;
             !a.ctl.force && Sendable(a) > 0 && WorthSending(a, Idle(a)) && a.snd.nxt <= r[i].b.rcv.nxt
    requires pkts != [] ==> pkts[0].ack <= r[i].b.snd.max
                            && Does(r[i + 1].b, r[i + 1].fromA, Arrive(pkts[0], credits), b', acks)
    requires !FinRcvd(r[i].b.state)
    ensures var a, b := r[i].a, r[i].b;
            pkts != [] && ByteCount(b') >= Min(a.snd.nxt + Min(Sendable(a), a.cfg.maxseg), WindowEnd(b))
  {
    hide Inputs, Outputs, Run, Has, Brings, WindowEnd, Flatten, Sendable, WorthSending, WindowsCover, FinRcvd,
      ByteCount;
    CallSends(r, i, a', pkts, 0);
    ArrivalTaken(r, i + 1, pkts[0], credits, b', acks);
  }
}
