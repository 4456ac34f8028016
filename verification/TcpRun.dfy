/** Two endpoints and a network that loses, duplicates and reorders: what holds in every run. */
module TcpRun {
  import opened Bytes
  import opened TcpSeq
  import opened TcpReass
  import opened TcpTcb
  import opened TcpOutput
  import opened TcpInput
  import opened TcpFin
  import opened TcpSent

  /** `fromA` is all that a has ever sent: the network may deliver any of it, any number of times, in any
      order, or never.  `cutA` says that a FIN for a has been cut at the right edge of its window. */
  datatype Sys = Sys(a: Endpoint, b: Endpoint, fromA: seq<Packet>, fromB: seq<Packet>, cutA: bool, cutB: bool)

  function Swap(s: Sys): Sys {
    Sys(s.b, s.a, s.fromB, s.fromA, s.cutB, s.cutA)
  }

  /** The user writes, closes or reads; a timer does something; `yhtp_output` is called; a segment arrives. */
  datatype Event =
    | Write(data: seq<byte>)
    | Close
    | Read(credits: nat)
    | Tick(back: bool, cwnd: nat, ssthresh: nat, ctl: Ctl)
    | Call
    | Arrive(p: Packet, credits: nat)

  function ClosedState(s: nat): nat {
    if s == ESTABLISHED then FIN_WAIT_1 else if s == CLOSE_WAIT then LAST_ACK else s
  }

  function Ticked(e: Endpoint, back: bool, cwnd: nat, ssthresh: nat, ctl: Ctl): Endpoint {
    e.(snd := e.snd.(nxt := if back then e.snd.una else e.snd.nxt, cwnd := cwnd, ssthresh := ssthresh), ctl := ctl)
  }

  ghost predicate Does(e: Endpoint, inbox: seq<Packet>, ev: Event, e': Endpoint, pkts: seq<Packet>) {
    Synchronized(e.state)
    && match ev
       case Write(d) => !UserClosed(e.state) && e' == e.(written := e.written + d) && pkts == []
       case Close => e' == e.(state := ClosedState(e.state)) && pkts == []
       case Read(credits) => e' == e.(rcv := Dequeued(e.rcv, credits)) && pkts == []
       case Tick(back, cwnd, ssthresh, ctl) => e' == Ticked(e, back, cwnd, ssthresh, ctl) && pkts == []
       case Call => Outputs(e, Idle(e), e', pkts)
       case Arrive(p, credits) => p in inbox && Inputs(e, p, credits, e', pkts)
  }

  ghost predicate Cuts(e: Endpoint, ev: Event) {
    ev.Arrive? && !Uncut(ev.p, e)
  }

  ghost predicate StepOf(s: Sys, ev: Event, s': Sys) {
    exists pkts :: Does(s.a, s.fromB, ev, s'.a, pkts)
                   && s' == Sys(s'.a, s.b, s.fromA + pkts, s.fromB, s.cutA || Cuts(s.a, ev), s.cutB)
  }

  ghost predicate Step(s: Sys, s': Sys) {
    exists ev :: StepOf(s, ev, s') || StepOf(Swap(s), ev, Swap(s'))
  }

  /** Just established, with sequence numbers that agree. */
  ghost predicate Fresh(e: Endpoint) {
    e.state == ESTABLISHED && e.written == [] && e.rcv == Rcv(0, [], [], []) && Sound(e) && e.cfg.hiwat <= REACH
    && e.snd.una == e.snd.max == 0
  }

  ghost predicate Starts(s: Sys) {
    Fresh(s.a) && Fresh(s.b) && s.fromA == [] && s.fromB == [] && !s.cutA && !s.cutB
    && s.a.cfg.sbase == s.b.cfg.rbase && s.b.cfg.sbase == s.a.cfg.rbase
  }

  ghost predicate Run(r: seq<Sys>) {
    r != [] && Starts(r[0]) && forall i :: 0 <= i < |r| - 1 ==> Step(r[i], r[i + 1])
  }

  // ----- the invariant

  /** x, which faces y, and all that x has sent. */
  ghost predicate Side(x: Endpoint, y: Endpoint, out: seq<Packet>) {
    Good(x, y) && AllHonest(out, x) && EdgesFrom(0, out) && (forall i :: 0 <= i < |out| ==> out[i].Edge() <= Edge(x))
  }

  /** What is queued ends within the window. */
  ghost predicate InWnd(e: Endpoint) {
    HeldBy(e.rcv.held, WndEdge(e))
  }

  ghost predicate Inv(s: Sys) {
    Side(s.a, s.b, s.fromA) && Side(s.b, s.a, s.fromB)
    && (!s.cutA ==> InPlace(s.a, s.b)) && (!s.cutB ==> InPlace(s.b, s.a))
    && Below(s.b, Top(s.a, s.fromA)) && Below(s.a, Top(s.b, s.fromB)) && InWnd(s.a) && InWnd(s.b)
    && s.a.cfg.sbase == s.b.cfg.rbase && s.b.cfg.sbase == s.a.cfg.rbase
  }

  // ----- every event keeps it

  lemma WriteGood(e: Endpoint, d: seq<byte>, peer: Endpoint)
    requires Good(e, peer) && Synchronized(e.state) && !UserClosed(e.state)
    ensures Good(e.(written := e.written + d), peer) && Onward(e, e.(written := e.written + d))
  {
    hide Flatten, AllAgree, Sorted, Reaches, Settled;
  }

  lemma CloseGood(e: Endpoint, peer: Endpoint)
    requires Good(e, peer) && Synchronized(e.state)
    ensures Good(e.(state := ClosedState(e.state)), peer) && Onward(e, e.(state := ClosedState(e.state)))
  {
    hide Flatten, AllAgree, Sorted, Reaches, Settled;
  }

  lemma TickGood(e: Endpoint, back: bool, cwnd: nat, ssthresh: nat, ctl: Ctl, peer: Endpoint)
    requires Good(e, peer)
    ensures Good(Ticked(e, back, cwnd, ssthresh, ctl), peer) && Onward(e, Ticked(e, back, cwnd, ssthresh, ctl))
  {
    hide Flatten, AllAgree, Sorted, Reaches, Settled;
  }

  lemma ReadGood(e: Endpoint, credits: nat, peer: Endpoint)
    requires Good(e, peer)
    ensures var f := e.(rcv := Dequeued(e.rcv, credits));
            Good(f, peer) && Onward(e, f)
  {
    hide Flatten, AllAgree, Sorted, Reaches, Settled;
    var n := if credits < |e.rcv.iq| then credits else |e.rcv.iq|;
    FlattenAppend(e.rcv.iq[..n], e.rcv.iq[n..]);
    assert e.rcv.iq[..n] + e.rcv.iq[n..] == e.rcv.iq;
    assert e.rcv.up + (Flatten(e.rcv.iq[..n]) + Flatten(e.rcv.iq[n..]))
        == e.rcv.up + Flatten(e.rcv.iq[..n]) + Flatten(e.rcv.iq[n..]);
  }

  lemma DoesGood(e: Endpoint, inbox: seq<Packet>, ev: Event, e': Endpoint, pkts: seq<Packet>, peer: Endpoint)
    requires Does(e, inbox, ev, e', pkts) && Good(e, peer) && AllHonest(inbox, peer)
    ensures Good(e', peer) && Onward(e, e') && SentBetween(e, e', pkts)
  {
    hide Good, Onward, Outputs, Inputs, Honest, SentBetween, Ticked, Dequeued;
    match ev
    case Write(d) =>
      WriteGood(e, d, peer);
      SentNone(e, e');
    case Close =>
      CloseGood(e, peer);
      SentNone(e, e');
    case Read(credits) =>
      ReadGood(e, credits, peer);
      SentNone(e, e');
    case Tick(back, cwnd, ssthresh, ctl) =>
      TickGood(e, back, cwnd, ssthresh, ctl, peer);
      SentNone(e, e');
    case Call =>
      RepliesGood(e, Idle(e), e', pkts, peer);
    case Arrive(p, credits) =>
      InputsGood(e, p, credits, e', pkts, peer);
  }

  /** What x knows of y stays true as y goes on. */
  lemma GoodPeer(x: Endpoint, y: Endpoint, y': Endpoint)
    requires Good(x, y) && Onward(y, y')
    ensures Good(x, y')
  {
    hide Flatten, Sorted, Reaches, Settled, Sound, Agrees;
    forall h: Held | Agrees(h, y.written)
      ensures Agrees(h, y'.written)
    {
      AgreesLonger(h, y.written, y'.written);
    }
  }

  lemma AgreesLonger(h: Held, s: seq<byte>, s': seq<byte>)
    requires Agrees(h, s) && s <= s'
    ensures Agrees(h, s')
  {
  }

  lemma HonestOnward(p: Packet, e: Endpoint, e': Endpoint)
    requires Honest(p, e) && Onward(e, e')
    ensures Honest(p, e')
  {
    hide Flatten;
    if p.data != [] {
      AgreesLonger(Held(p.pos, p.data, p.fin), e.written, e'.written);
    }
  }

  lemma SideMoves(x: Endpoint, x': Endpoint, y: Endpoint, out: seq<Packet>, pkts: seq<Packet>)
    requires Side(x, y, out) && Good(x', y) && Onward(x, x') && SentBetween(x, x', pkts)
    ensures Side(x', y, out + pkts)
  {
    hide Good, Onward, Honest;
    forall i | 0 <= i < |out|
      ensures Honest(out[i], x')
    {
      HonestOnward(out[i], x, x');
    }
    EdgeNonneg(x, y);
    EdgesJoin(Edge(x), out, pkts);
  }

  lemma EdgesJoin(mid: int, out: seq<Packet>, pkts: seq<Packet>)
    requires EdgesFrom(0, out) && EdgesFrom(mid, pkts) && (forall i :: 0 <= i < |out| ==> out[i].Edge() <= mid)
    requires 0 <= mid
    ensures EdgesFrom(0, out + pkts)
  {
    var all := out + pkts;
    forall i, j | 0 <= i < j < |all|
      ensures all[i].Edge() <= all[j].Edge()
    {
      if j >= |out| && i < |out| {
        assert all[j] == pkts[j - |out|] && all[i] == out[i];
      }
    }
  }

  lemma EdgeNonneg(e: Endpoint, peer: Endpoint)
    requires Good(e, peer)
    ensures 0 <= Edge(e)
  {
  }

  lemma InPlacePeer(y: Endpoint, x: Endpoint, x': Endpoint)
    requires InPlace(y, x) && Onward(x, x')
    ensures InPlace(y, x')
  {
    hide Flatten;
  }

  lemma DoesInPlace(e: Endpoint, inbox: seq<Packet>, ev: Event, e': Endpoint, pkts: seq<Packet>, peer: Endpoint)
    requires Does(e, inbox, ev, e', pkts) && Good(e, peer) && AllHonest(inbox, peer)
    requires InPlace(e, peer) && !Cuts(e, ev)
    ensures InPlace(e', peer)
  {
    hide InPlace, Good, Outputs, Inputs, Honest, Uncut;
    if ev.Call? {
      OutputsInPlace(e, Idle(e), e', pkts, peer);
    } else if ev.Arrive? {
      InputsInPlace(e, ev.p, ev.credits, e', pkts, peer);
    } else {
      InPlaceSame(e, e', peer);
    }
  }

  lemma DoesBelow(e: Endpoint, inbox: seq<Packet>, ev: Event, e': Endpoint, pkts: seq<Packet>, peer: Endpoint)
    requires Does(e, inbox, ev, e', pkts) && Good(e, peer) && AllHonest(inbox, peer) && Sound(peer)
    requires Below(e, Top(peer, inbox))
    ensures Below(e', Top(peer, inbox))
  {
    hide Below, Good, Outputs, Inputs, Honest, Sound, Top;
    if ev.Call? {
      OutputsRcv(e, e', pkts, peer);
      BelowSame(e, e', Top(peer, inbox));
    } else if ev.Arrive? {
      HonestBrings(peer, inbox, ev.p);
      InputsBelow(e, ev.p, ev.credits, e', pkts, Top(peer, inbox), peer);
    } else {
      BelowSame(e, e', Top(peer, inbox));
    }
  }

  lemma DoesInWnd(e: Endpoint, inbox: seq<Packet>, ev: Event, e': Endpoint, pkts: seq<Packet>, peer: Endpoint)
    requires Does(e, inbox, ev, e', pkts) && Good(e, peer) && AllHonest(inbox, peer) && Good(e', peer) && Onward(e, e')
    requires InWnd(e)
    ensures InWnd(e')
  {
    hide Good, Outputs, Inputs, Honest, HeldBy, WndEdge, Onward;
    WndEdgeGrows(e, e', peer, peer);
    if ev.Call? {
      OutputsRcv(e, e', pkts, peer);
    } else if ev.Arrive? {
      InputsHeldBy(e, ev.p, ev.credits, e', pkts, peer);
    }
    HeldByMore(e'.rcv.held, WndEdge(e), WndEdge(e'));
  }

  lemma HeldByMore(held: seq<Held>, edge: int, edge': int)
    requires HeldBy(held, edge) && edge <= edge'
    ensures HeldBy(held, edge')
  {
  }

  lemma GoodSound(x: Endpoint, y: Endpoint)
    requires Good(x, y)
    ensures Sound(x)
  {
  }

  /** What x sends lets its peer get further, and no less far than before. */
  lemma PeerBelow(x: Endpoint, x': Endpoint, y: Endpoint, out: seq<Packet>, pkts: seq<Packet>)
    requires Below(y, Top(x, out)) && AllHonest(out, x) && Onward(x, x') && Sound(x')
    ensures Below(y, Top(x', out + pkts))
  {
    hide Below, Top, Onward, Sound;
    TopGrows(x, x', out, pkts);
    BelowHigher(y, Top(x, out), Top(x', out + pkts));
  }

  /** A step of the first endpoint keeps the invariant. */
  lemma StepOfInv(s: Sys, ev: Event, s': Sys)
    requires Inv(s) && StepOf(s, ev, s')
    ensures Inv(s') && Onward(s.a, s'.a) && s'.b == s.b && s.fromA <= s'.fromA && s'.fromB == s.fromB
  {
    hide Good, Honest, EdgesFrom, Does, SentBetween, InPlace, Below, Top, Sound, InWnd;
    var pkts :| Does(s.a, s.fromB, ev, s'.a, pkts)
                && s' == Sys(s'.a, s.b, s.fromA + pkts, s.fromB, s.cutA || Cuts(s.a, ev), s.cutB);
    DoesGood(s.a, s.fromB, ev, s'.a, pkts, s.b);
    SideMoves(s.a, s'.a, s.b, s.fromA, pkts);
    GoodPeer(s.b, s.a, s'.a);
    GoodSound(s'.a, s.b);
    GoodSound(s.b, s.a);
    DoesBelow(s.a, s.fromB, ev, s'.a, pkts, s.b);
    DoesInWnd(s.a, s.fromB, ev, s'.a, pkts, s.b);
    PeerBelow(s.a, s'.a, s.b, s.fromA, pkts);
    if !s'.cutA {
      DoesInPlace(s.a, s.fromB, ev, s'.a, pkts, s.b);
    }
    if !s'.cutB {
      InPlacePeer(s.b, s.a, s'.a);
    }
  }

  /** What a system never takes back. */
  ghost predicate Further(s: Sys, s': Sys) {
    Onward(s.a, s'.a) && Onward(s.b, s'.b) && s.fromA <= s'.fromA && s.fromB <= s'.fromB
  }

  lemma SwapInv(s: Sys)
    requires Inv(s)
    ensures Inv(Swap(s))
  {
    hide Side, InPlace, Below, Top, InWnd;
  }

  lemma SwapBack(s: Sys)
    ensures Swap(Swap(s)) == s
  {
  }

  lemma StepInv(s: Sys, s': Sys)
    requires Inv(s) && Step(s, s')
    ensures Inv(s') && Further(s, s')
  {
    hide Inv, StepOf, Onward;
    var ev :| StepOf(s, ev, s') || StepOf(Swap(s), ev, Swap(s'));
    OnwardSelf(s.a);
    OnwardSelf(s.b);
    if StepOf(s, ev, s') {
      StepOfInv(s, ev, s');
    } else {
      SwapInv(s);
      StepOfInv(Swap(s), ev, Swap(s'));
      SwapInv(Swap(s'));
      SwapBack(s');
    }
  }

  lemma StartsInv(s: Sys)
    requires Starts(s)
    ensures Inv(s)
  {
    FreshGood(s.a, s.b);
    FreshGood(s.b, s.a);
    assert Below(s.a, Top(s.b, [])) && Below(s.b, Top(s.a, []));
  }

  lemma FreshGood(e: Endpoint, peer: Endpoint)
    requires Fresh(e) && Fresh(peer)
    ensures Good(e, peer) && InPlace(e, peer)
  {
    assert Flatten([]) == [];
  }

  /** Every state of every run satisfies the invariant, and nothing is taken back on the way. */
  lemma {:induction false} RunInv(r: seq<Sys>, i: nat, j: nat)
    requires Run(r) && i <= j < |r|
    ensures Inv(r[j]) && Further(r[i], r[j])
    decreases j
  {
    hide Inv, Starts, Step, Further;
    if j == 0 {
      StartsInv(r[0]);
      FurtherSelf(r[0]);
    } else {
      RunInv(r, j - 1, j - 1);
      assert Step(r[j - 1], r[j - 1 + 1]);
      StepInv(r[j - 1], r[j]);
      if i == j {
        FurtherSelf(r[j]);
      } else {
        RunInv(r, i, j - 1);
        FurtherTrans(r[i], r[j - 1], r[j]);
      }
    }
  }

  lemma FurtherSelf(s: Sys)
    ensures Further(s, s)
  {
  }

  lemma FurtherTrans(s: Sys, t: Sys, u: Sys)
    requires Further(s, t) && Further(t, u)
    ensures Further(s, u)
  {
    hide Onward;
    OnwardTrans(s.a, t.a, u.a);
    OnwardTrans(s.b, t.b, u.b);
  }

  // ----- what that means

  /** The bytes that b's user has got, with those that wait for him, are the first of the bytes that a's user
      has written: as many as `rcv_nxt` has counted, and one less once it has counted a FIN. */
  lemma DeliveredIsPrefix(r: seq<Sys>, i: nat)
    requires Run(r) && i < |r|
    ensures var a, b := r[i].a, r[i].b;
            b.rcv.up <= a.written
            && b.rcv.up + Flatten(b.rcv.iq) <= a.written
            && |b.rcv.up + Flatten(b.rcv.iq)| == b.rcv.nxt - (if FinRcvd(b.state) then 1 else 0)
  {
    hide Flatten;
    RunInv(r, i, i);
    var a, b := r[i].a, r[i].b;
    assert b.rcv.up + Flatten(b.rcv.iq) == a.written[..ByteCount(b)];
    assert b.rcv.up == (b.rcv.up + Flatten(b.rcv.iq))[..|b.rcv.up|];
  }

  /** `snd_una <= snd_nxt <= snd_max`, and nothing counts as acknowledged that the peer has not counted. */
  lemma SequenceOrder(r: seq<Sys>, i: nat)
    requires Run(r) && i < |r|
    ensures var s := r[i].a.snd;
            0 <= s.una <= s.nxt <= s.max <= |r[i].a.written| + 1 && s.una <= r[i].b.rcv.nxt
  {
    RunInv(r, i, i);
  }

  /** Whenever they were sent, two segments agree on the byte at a position. */
  lemma OneByte(r: seq<Sys>, i: nat, j: nat, p: Packet, q: Packet, k: int)
    requires Run(r) && i <= j < |r| && p in r[i].fromA && q in r[j].fromA
    requires p.pos <= k < p.pos + |p.data| && q.pos <= k < q.pos + |q.data|
    ensures p.data[k - p.pos] == q.data[k - q.pos]
  {
    RunInv(r, i, j);
    assert p in r[j].fromA;
    var e := r[j].a;
    assert Honest(p, e) && Honest(q, e);
    assert Agrees(Held(p.pos, p.data, p.fin), e.written) && Agrees(Held(q.pos, q.data, q.fin), e.written);
    assert p.data[k - p.pos] == e.written[k] == q.data[k - q.pos];
  }

  /** So do the numbers on the wire, unless they are 2^31 or more apart. */
  lemma OneByteOnWire(r: seq<Sys>, i: nat, j: nat, p: Packet, q: Packet, k: nat, l: nat)
    requires Run(r) && i <= j < |r| && p in r[i].fromA && q in r[j].fromA
    requires k < |p.data| && l < |q.data| && Near(p.pos + k, q.pos + l)
    requires var base := r[j].a.cfg.sbase; Wrap(base + p.pos + k) == Wrap(base + q.pos + l)
    ensures p.data[k] == q.data[l]
  {
    Compare(r[j].a.cfg.sbase + p.pos + k, r[j].a.cfg.sbase + q.pos + l);
    OneByte(r, i, j, p, q, p.pos + k);
  }

  /** The right edges that a has advertised, in the order of sending, never move left. */
  lemma RightEdge(r: seq<Sys>, i: nat, m: nat, n: nat)
    requires Run(r) && i < |r| && m <= n < |r[i].fromA|
    ensures r[i].fromA[m].Edge() <= r[i].fromA[n].Edge()
  {
    RunInv(r, i, i);
  }

  /** Once b has counted a FIN, neither `rcv_nxt` nor the bytes change again. */
  lemma FinOnce(r: seq<Sys>, i: nat, j: nat)
    requires Run(r) && i <= j < |r| && FinRcvd(r[i].b.state)
    ensures var b, c := r[i].b, r[j].b;
            FinRcvd(c.state) && c.rcv.nxt == b.rcv.nxt
            && c.rcv.up + Flatten(c.rcv.iq) == b.rcv.up + Flatten(b.rcv.iq)
  {
    hide Inv;
    RunInv(r, i, j);
  }

  /** Unless a FIN for b was cut at the edge of its window, b counts a FIN only after all of a's bytes, and
      every byte acknowledged to a is one that b has. */
  lemma AckedIsReceived(r: seq<Sys>, i: nat)
    requires Run(r) && i < |r| && !r[i].cutB
    ensures var a, b := r[i].a, r[i].b;
            (FinRcvd(b.state) ==> Done(a) && b.rcv.up + Flatten(b.rcv.iq) == a.written)
            && Min(a.snd.una, |a.written|) <= |b.rcv.up + Flatten(b.rcv.iq)|
            && (a.snd.una == |a.written| + 1 ==> b.rcv.up + Flatten(b.rcv.iq) == a.written)
  {
    hide Flatten;
    RunInv(r, i, i);
    var a, b := r[i].a, r[i].b;
    assert b.rcv.up + Flatten(b.rcv.iq) == a.written[..ByteCount(b)];
    assert a.written[..|a.written|] == a.written;
  }

  /** In every run, a FIN segment from a that is next in order: into a shut window nothing of it is taken, unless
      the FIN alone is new; otherwise b counts its FIN, after the last byte exactly when that is within the window,
      and else at the edge, where the text was cut. */
  lemma FinCounted(r: seq<Sys>, i: nat, p: Packet, credits: nat)
    requires Run(r) && i < |r| && p in r[i].fromA && p.fin && p.pos <= r[i].b.rcv.nxt
    requires Synchronized(r[i].b.state) && !FinRcvd(r[i].b.state)
    ensures var b, end := r[i].b, |r[i].a.written|;
            var f, edge := Text(b, Trim(b, p), p.fin, credits), WndEdge(b);
            if edge == b.rcv.nxt < end then f == b
            else FinRcvd(f.state) && ByteCount(f) == Min(end, edge) && (ByteCount(f) == end <==> end <= edge)
  {
    RunInv(r, i, i);
    var a, b := r[i].a, r[i].b;
    assert Honest(p, a) && AnyFin(r[i].fromA);
    HeldBeforeEnd(a, b, r[i].fromA);
    assert p.pos + |p.data| == |a.written|;
    hide Text, Trim, WndEdge, RcvWnd, HeldBy;
    FinCutEarly(b, p, credits);
  }

  lemma HeldBeforeEnd(a: Endpoint, b: Endpoint, out: seq<Packet>)
    requires Good(b, a) && !FinRcvd(b.state) && AnyFin(out) && Below(b, Top(a, out)) && InWnd(b)
    ensures HeldBy(b.rcv.held, Min(|a.written|, b.rcv.nxt + RcvWnd(b)))
    ensures Sorted(b.rcv.nxt, b.rcv.held) && Settled(b.rcv.nxt, b.rcv.held) && b.rcv.nxt <= |a.written|
  {
    hide RcvWnd, Flatten, Sorted, Settled, Reaches;
    forall i | 0 <= i < |b.rcv.held|
      ensures b.rcv.held[i].End() <= |a.written|
    {
      if b.rcv.held[i].data != [] {
        assert Agrees(b.rcv.held[i], a.written);
      } else {
        assert Last(b.rcv.held[i]) <= |a.written| + 1;
      }
    }
  }

  /** b has counted no more than a has sent: up to `snd_max`, or up to a FIN that has gone out.  So while every
      FIN that a has sent counts as sent, `rcv_nxt` is at `snd_max` or before it. */
  lemma CountedIsSent(r: seq<Sys>, i: nat)
    requires Run(r) && i < |r|
    ensures var a, b := r[i].a, r[i].b;
            b.rcv.nxt <= Top(a, r[i].fromA)
            && ((AnyFin(r[i].fromA) ==> a.snd.sentfin) ==> b.rcv.nxt <= a.snd.max)
  {
    RunInv(r, i, i);
    GoodSound(r[i].a, r[i].b);
  }

  function Swapped(r: seq<Sys>): seq<Sys> {
    seq(|r|, i requires 0 <= i < |r| => Swap(r[i]))
  }

  /** The two endpoints may change places, so all of this holds the other way round too. */
  lemma SwapRun(r: seq<Sys>)
    requires Run(r)
    ensures Run(Swapped(r))
  {
    hide StepOf;
    var q := Swapped(r);
    forall i | 0 <= i < |q| - 1
      ensures Step(q[i], q[i + 1])
    {
      assert Step(r[i], r[i + 1]);
      var ev :| StepOf(r[i], ev, r[i + 1]) || StepOf(Swap(r[i]), ev, Swap(r[i + 1]));
      SwapBack(r[i]);
      SwapBack(r[i + 1]);
      assert StepOf(q[i], ev, q[i + 1]) || StepOf(Swap(q[i]), ev, Swap(q[i + 1]));
    }
  }
}
