/** Protocol control blocks: `yhin_pcblookup`, `yhin_pcbbind`, `yhin_pcbconnect` and `yhin_pcbdisconnect`.
    Addresses and ports are numbers; 0 is INADDR_ANY and no port. */
module InPcb {
  import opened Wrappers

  const RESERVED := 1024
  const USERRESERVED := 5000

  /** An endpoint; after the addresses the options and capabilities that `yhin_pcbbind` looks at. */
  datatype Pcb = Pcb(laddr: nat, lport: nat, faddr: nat, fport: nat,
                     socket: bool, priv: bool, reuse: bool, connreq: bool, accept: bool)

  /** What a segment or a request asks for. */
  datatype Query = Query(faddr: nat, fport: nat, laddr: nat, lport: nat)

  /** The errors, and that the call never comes back. */
  datatype Error = Ok | EINVAL | EACCES | EADDRINUSE | EADDRNOTAVAIL | Hangs

  // ----- lookup

  /** An endpoint that may answer: equal where both sides say something. */
  predicate Compatible(p: Pcb, q: Query) {
    p.lport == q.lport
    && (p.laddr != 0 && q.laddr != 0 ==> p.laddr == q.laddr)
    && (p.faddr != 0 && q.faddr != 0 ==> p.faddr == q.faddr && p.fport == q.fport)
  }

  /** On how many of the two addresses only one side says something. */
  function Wildcards(p: Pcb, q: Query): nat {
    (if (p.laddr == 0) == (q.laddr == 0) then 0 else 1) + (if (p.faddr == 0) == (q.faddr == 0) then 0 else 1)
  }

  predicate Eligible(p: Pcb, q: Query, wild: bool) {
    Compatible(p, q) && (wild || Wildcards(p, q) == 0)
  }

  ghost predicate Matched(pcbs: seq<Pcb>, q: Query, wild: bool) {
    exists i :: 0 <= i < |pcbs| && Eligible(pcbs[i], q, wild)
  }

  /** The first of the eligible endpoints with the fewest wildcards. */
  ghost predicate Best(pcbs: seq<Pcb>, q: Query, wild: bool, i: nat) {
    i < |pcbs| && Eligible(pcbs[i], q, wild)
    && (forall j :: 0 <= j < |pcbs| && Eligible(pcbs[j], q, wild) ==> Wildcards(pcbs[i], q) <= Wildcards(pcbs[j], q))
    && (forall j :: 0 <= j < i && Eligible(pcbs[j], q, wild) ==> Wildcards(pcbs[i], q) < Wildcards(pcbs[j], q))
  }

  /** An endpoint is connected once it has a peer. */
  predicate Connected(p: Pcb) {
    p.faddr != 0
  }

  predicate SameTuple(p: Pcb, q: Pcb) {
    p.laddr == q.laddr && p.lport == q.lport && p.faddr == q.faddr && p.fport == q.fport
  }

  /** No two connected endpoints have the same addresses and ports. */
  ghost predicate Unique(pcbs: seq<Pcb>) {
    forall i, j :: 0 <= i < j < |pcbs| && Connected(pcbs[i]) && Connected(pcbs[j]) ==> !SameTuple(pcbs[i], pcbs[j])
  }

  /** While connections are unique, what matches exactly is what lookup answers, and there is one at the most. */
  lemma ExactIsUnique(pcbs: seq<Pcb>, q: Query, wild: bool, i: nat, r: nat)
    requires Unique(pcbs) && q.faddr != 0 && q.laddr != 0 && i < |pcbs|
    requires pcbs[i].faddr == q.faddr && pcbs[i].fport == q.fport && pcbs[i].laddr == q.laddr
            && pcbs[i].lport == q.lport
    requires Best(pcbs, q, wild, r)
    ensures r == i
  {
    assert Eligible(pcbs[i], q, wild);
    assert SameTuple(pcbs[i], pcbs[r]);
  }

  // ----- ports to give out

  /** `head->inp_lport++ < IPPORT_RESERVED || head->inp_lport > IPPORT_USERRESERVED` */
  function NextPort(last: nat): nat {
    if last < RESERVED || last + 1 > USERRESERVED then RESERVED else last + 1
  }

  ghost predicate Free(pcbs: seq<Pcb>, laddr: nat, port: nat) {
    !Matched(pcbs, Query(0, 0, laddr, port), true)
  }

  /** How far the port p is from `last`, going round. */
  function Ahead(last: nat, p: nat): int {
    if last < RESERVED || last >= USERRESERVED then p - RESERVED
    else if p > last then p - last - 1
    else p - last - 1 + (USERRESERVED - RESERVED + 1)
  }

  function Ports(last: nat, n: nat): nat
    decreases n
  {
    if n == 0 then NextPort(last) else Ports(NextPort(last), n - 1)
  }

  /** Going round comes to every port, so the loop ends exactly when some port is free. */
  lemma {:induction false} ComesTo(last: nat, p: nat)
    requires RESERVED <= p <= USERRESERVED
    ensures 0 <= Ahead(last, p) <= USERRESERVED - RESERVED && Ports(last, Ahead(last, p)) == p
    decreases Ahead(last, p)
  {
    if Ahead(last, p) > 0 {
      assert Ahead(NextPort(last), p) == Ahead(last, p) - 1;
      ComesTo(NextPort(last), p);
    }
  }

  lemma {:induction false} StaysInRange(last: nat, n: nat)
    ensures RESERVED <= Ports(last, n) <= USERRESERVED
    decreases n
  {
    if n > 0 {
      StaysInRange(NextPort(last), n - 1);
    }
  }

  ghost predicate SomeFree(pcbs: seq<Pcb>, laddr: nat) {
    exists p :: RESERVED <= p <= USERRESERVED && Free(pcbs, laddr, p)
  }

  lemma EndsWhenFree(pcbs: seq<Pcb>, laddr: nat, last: nat)
    ensures (exists n :: Free(pcbs, laddr, Ports(last, n))) <==> SomeFree(pcbs, laddr)
  {
    if SomeFree(pcbs, laddr) {
      var p :| RESERVED <= p <= USERRESERVED && Free(pcbs, laddr, p);
      ComesTo(last, p);
      assert Free(pcbs, laddr, Ports(last, Ahead(last, p)));
    }
    if n :| Free(pcbs, laddr, Ports(last, n)) {
      StaysInRange(last, n);
    }
  }

  function OnPort(port: nat): Pcb {
    Pcb(0, port, 0, 0, false, false, false, false, false)
  }

  /** An endpoint on each of the 3977 ports. */
  function OneEach(): seq<Pcb> {
    seq(USERRESERVED - RESERVED + 1, i requires 0 <= i => OnPort(RESERVED + i))
  }

  /** With those there is no port left, on any address. */
  lemma NoneFree(laddr: nat)
    ensures !SomeFree(OneEach(), laddr)
  {
    forall p | RESERVED <= p <= USERRESERVED
      ensures !Free(OneEach(), laddr, p)
    {
      var k := p - RESERVED;
      assert OneEach()[k] == OnPort(RESERVED + k);
      assert Eligible(OneEach()[k], Query(0, 0, laddr, p), true);
    }
  }

  lemma {:induction false} PortsNext(last: nat, n: nat)
    ensures n > 0 ==> Ports(last, n) == NextPort(Ports(last, n - 1))
    ensures n == 0 ==> Ports(last, n) == NextPort(last)
    decreases n
  {
    if n > 1 {
      PortsNext(NextPort(last), n - 1);
    }
  }

  /** Once round is enough. */
  lemma AllTried(pcbs: seq<Pcb>, laddr: nat, last: nat)
    requires forall k :: 0 <= k <= USERRESERVED - RESERVED ==> !Free(pcbs, laddr, Ports(last, k))
    ensures !SomeFree(pcbs, laddr)
  {
    forall p | RESERVED <= p <= USERRESERVED
      ensures !Free(pcbs, laddr, p)
    {
      ComesTo(last, p);
    }
  }

  // ----- what the operations do to an endpoint

  /** The local address that a bind uses: one of ours, or any. */
  function BindAddr(p: Pcb, ours: set<nat>, addr: nat): nat {
    if addr != 0 && addr !in ours then 0 else addr
  }

  predicate Foreign(p: Pcb, ours: set<nat>, addr: nat) {
    addr != 0 && addr !in ours && p.socket
  }

  predicate WildBind(p: Pcb) {
    !p.reuse && (!p.connreq || !p.accept)
  }

  ghost predicate InUse(pcbs: seq<Pcb>, p: Pcb, addr: nat, port: nat) {
    Matched(pcbs, Query(0, 0, addr, port), WildBind(p))
  }

  /** Endpoint i, on address a, is given a port that nobody has, if there is one. */
  ghost predicate GivesPort(pcbs: seq<Pcb>, i: nat, a: nat, pcbs': seq<Pcb>, err: Error)
    requires i < |pcbs|
  {
    if SomeFree(pcbs, a) then
      err == Ok
      && exists n :: RESERVED <= n <= USERRESERVED && Free(pcbs, a, n) && pcbs' == pcbs[i := pcbs[i].(lport := n)]
    else err == Hangs && pcbs' == pcbs
  }

  /** `yhin_pcbbind` on endpoint i, with the error it gives. */
  ghost predicate Binds(pcbs: seq<Pcb>, i: nat, ours: set<nat>, addr: nat, port: nat, pcbs': seq<Pcb>, err: Error)
    requires i < |pcbs|
  {
    var p := pcbs[i];
    var a := BindAddr(p, ours, addr);
    if p.lport != 0 || p.laddr != 0 then err == EINVAL && pcbs' == pcbs
    else if Foreign(p, ours, addr) then err == EADDRNOTAVAIL && pcbs' == pcbs
    else if port != 0 && port < RESERVED && !p.priv then err == EACCES && pcbs' == pcbs
    else if port != 0 && InUse(pcbs, p, a, port) && p.socket then err == EADDRINUSE && pcbs' == pcbs
    else if port != 0 && !InUse(pcbs, p, a, port) then err == Ok && pcbs' == pcbs[i := p.(laddr := a, lport := port)]
    else GivesPort(pcbs[i := p.(laddr := a)], i, a, pcbs', err)
  }

  /** `yhin_pcbconnect` on endpoint i to a destination already resolved; `via` is the address of the interface
      that leads there. */
  ghost predicate Connects(pcbs: seq<Pcb>, i: nat, ours: set<nat>, to: nat, port: nat, via: Option<nat>,
                           pcbs': seq<Pcb>, err: Error)
    requires i < |pcbs|
  {
    var p := pcbs[i];
    if port == 0 || (p.laddr == 0 && via.None?) then err == EADDRNOTAVAIL && pcbs' == pcbs
    else
      var l := if p.laddr != 0 then p.laddr else via.value;
      if Matched(pcbs, Query(to, port, l, p.lport), false) then err == EADDRINUSE && pcbs' == pcbs
      else
        var q := if p.lport != 0 then p.(laddr := l) else p;
        if q.laddr != 0 then err == Ok && pcbs' == pcbs[i := q.(faddr := to, fport := port)]
        else BindsAndConnects(pcbs[i := q.(lport := 0)], i, ours, l, to, port, pcbs', err)
  }

  /** A local address and a port are found first. */
  ghost predicate BindsAndConnects(pcbs: seq<Pcb>, i: nat, ours: set<nat>, l: nat, to: nat, port: nat,
                                   pcbs': seq<Pcb>, err: Error)
    requires i < |pcbs|
  {
    exists mid: seq<Pcb> :: Binds(pcbs, i, ours, l, 0, mid, err) && |mid| == |pcbs|
                  && pcbs' == if err == Ok then mid[i := mid[i].(faddr := to, fport := port)] else mid
  }

  /** `yhin_pcbdisconnect`; an endpoint with no user goes with it. */
  function Disconnected(pcbs: seq<Pcb>, i: nat, gone: bool): seq<Pcb>
    requires i < |pcbs|
  {
    if gone then pcbs[..i] + pcbs[i + 1..] else pcbs[i := pcbs[i].(faddr := 0, fport := 0)]
  }

  // ----- over all histories

  /** Every step there is: endpoints made, bound, connected, disconnected and detached.  A call that hangs is the
      end of a history. */
  ghost predicate Step(pcbs: seq<Pcb>, pcbs': seq<Pcb>) {
    (exists p: Pcb :: p.laddr == p.lport == p.faddr == p.fport == 0 && pcbs' == [p] + pcbs)
    || (exists i: nat, ours, addr, port, err ::
          i < |pcbs| && err != Hangs && Binds(pcbs, i, ours, addr, port, pcbs', err))
    || (exists i: nat, ours, to, port, via, err ::
          i < |pcbs| && err != Hangs && Connects(pcbs, i, ours, to, port, via, pcbs', err))
    || (exists i: nat, gone :: i < |pcbs| && pcbs' == Disconnected(pcbs, i, gone))
  }

  /** An endpoint with a peer or an address of its own has a port, so that it is never bound again. */
  predicate Bound(p: Pcb) {
    Connected(p) || p.laddr != 0 ==> p.lport != 0
  }

  ghost predicate Inv(pcbs: seq<Pcb>) {
    Unique(pcbs) && forall i :: 0 <= i < |pcbs| ==> Bound(pcbs[i])
  }

  lemma InvUpdate(pcbs: seq<Pcb>, i: nat, p: Pcb)
    requires Inv(pcbs) && i < |pcbs| && Bound(p)
    requires Connected(p) ==> forall j :: 0 <= j < |pcbs| && j != i && Connected(pcbs[j]) ==> !SameTuple(p, pcbs[j])
    ensures Inv(pcbs[i := p])
  {
  }

  lemma BindsInv(pcbs: seq<Pcb>, i: nat, ours: set<nat>, addr: nat, port: nat, pcbs': seq<Pcb>, err: Error)
    requires Inv(pcbs) && i < |pcbs| && err != Hangs && Binds(pcbs, i, ours, addr, port, pcbs', err)
    ensures Inv(pcbs') && |pcbs'| == |pcbs|
  {
    var p := pcbs[i];
    if err == Ok {
      var q := pcbs'[i];
      assert pcbs' == pcbs[i := q];
      InvUpdate(pcbs, i, q);
    }
  }

  function At(laddr: nat, lport: nat, faddr: nat, fport: nat): Pcb {
    Pcb(laddr, lport, faddr, fport, false, false, false, false, false)
  }

  /** An exact lookup that finds nothing leaves the tuple free. */
  lemma TupleFree(pcbs: seq<Pcb>, to: nat, port: nat, l: nat, lport: nat)
    requires !Matched(pcbs, Query(to, port, l, lport), false) && to != 0
    ensures forall j :: 0 <= j < |pcbs| ==> !SameTuple(pcbs[j], At(l, lport, to, port))
  {
    forall j | 0 <= j < |pcbs|
      ensures !SameTuple(pcbs[j], At(l, lport, to, port))
    {
      assert !Eligible(pcbs[j], Query(to, port, l, lport), false);
    }
  }

  /** A port given out is nobody else's on that address. */
  lemma PortFree(pcbs: seq<Pcb>, l: nat, n: nat)
    requires Free(pcbs, l, n)
    ensures forall j :: 0 <= j < |pcbs| && pcbs[j].lport == n ==> pcbs[j].laddr != l
  {
    forall j | 0 <= j < |pcbs| && pcbs[j].lport == n
      ensures pcbs[j].laddr != l
    {
      assert !Eligible(pcbs[j], Query(0, 0, l, n), true);
    }
  }

  lemma ConnectDirect(pcbs: seq<Pcb>, i: nat, to: nat, port: nat, l: nat, q: Pcb)
    requires Inv(pcbs) && i < |pcbs| && q.laddr == l != 0 && q.lport == pcbs[i].lport && q.lport != 0
    requires !Matched(pcbs, Query(to, port, l, q.lport), false)
    ensures Inv(pcbs[i := q.(faddr := to, fport := port)])
  {
    if to != 0 {
      TupleFree(pcbs, to, port, l, q.lport);
    }
    InvUpdate(pcbs, i, q.(faddr := to, fport := port));
  }

  lemma PortGiven(pcbs: seq<Pcb>, i: nat, ours: set<nat>, l: nat, mid: seq<Pcb>) returns (n: nat)
    requires i < |pcbs| && pcbs[i].laddr == 0 && pcbs[i].lport == 0 && Binds(pcbs, i, ours, l, 0, mid, Ok)
    ensures var a := BindAddr(pcbs[i], ours, l);
            RESERVED <= n <= USERRESERVED && Free(pcbs[i := pcbs[i].(laddr := a)], a, n)
            && mid == pcbs[i := pcbs[i].(laddr := a, lport := n)]
  {
    var a := BindAddr(pcbs[i], ours, l);
    var start := pcbs[i := pcbs[i].(laddr := a)];
    hide Free, SomeFree;
    n :| RESERVED <= n <= USERRESERVED && Free(start, a, n) && mid == start[i := start[i].(lport := n)];
  }

  lemma ConnectBound(pcbs: seq<Pcb>, i: nat, ours: set<nat>, l: nat, to: nat, port: nat, pcbs': seq<Pcb>, err: Error)
    requires Inv(pcbs) && i < |pcbs| && pcbs[i].laddr == 0 && (pcbs[i].lport != 0 ==> l == 0)
    requires err != Hangs && BindsAndConnects(pcbs[i := pcbs[i].(lport := 0)], i, ours, l, to, port, pcbs', err)
    ensures Inv(pcbs')
  {
    var start := pcbs[i := pcbs[i].(lport := 0)];
    var mid: seq<Pcb> :| Binds(start, i, ours, l, 0, mid, err) && |mid| == |start|
               && pcbs' == if err == Ok then mid[i := mid[i].(faddr := to, fport := port)] else mid;
    if err == Ok {
      var a := BindAddr(start[i], ours, l);
      var n := PortGiven(start, i, ours, l, mid);
      hide Binds, BindsAndConnects;
      var p := start[i].(laddr := a, lport := n, faddr := to, fport := port);
      PortFree(start[i := start[i].(laddr := a)], a, n);
      assert pcbs' == pcbs[i := p];
      forall j | 0 <= j < |pcbs| && j != i
        ensures !SameTuple(p, pcbs[j])
      {
        assert start[i := start[i].(laddr := a)][j] == pcbs[j];
      }
      InvUpdate(pcbs, i, p);
    } else {
      assert mid == start == pcbs;
    }
  }

  lemma ConnectsInv(pcbs: seq<Pcb>, i: nat, ours: set<nat>, to: nat, port: nat, via: Option<nat>, pcbs': seq<Pcb>,
                    err: Error)
    requires Inv(pcbs) && i < |pcbs| && err != Hangs && Connects(pcbs, i, ours, to, port, via, pcbs', err)
    ensures Inv(pcbs')
  {
    hide Matched, Eligible, BindsAndConnects;
    var p := pcbs[i];
    assert Bound(p);
    if port != 0 && (p.laddr != 0 || via.Some?) {
      var l := if p.laddr != 0 then p.laddr else via.value;
      if !Matched(pcbs, Query(to, port, l, p.lport), false) {
        var q := if p.lport != 0 then p.(laddr := l) else p;
        if q.laddr != 0 {
          ConnectDirect(pcbs, i, to, port, l, q);
        } else {
          assert q == p;
          ConnectBound(pcbs, i, ours, l, to, port, pcbs', err);
        }
      }
    }
  }

  lemma DisconnectedInv(pcbs: seq<Pcb>, i: nat, gone: bool)
    requires Inv(pcbs) && i < |pcbs|
    ensures Inv(Disconnected(pcbs, i, gone))
  {
    if gone {
      var d := pcbs[..i] + pcbs[i + 1..];
      forall j, k | 0 <= j < k < |d| && Connected(d[j]) && Connected(d[k])
        ensures !SameTuple(d[j], d[k])
      {
        assert d[j] == pcbs[if j < i then j else j + 1] && d[k] == pcbs[if k < i then k else k + 1];
      }
    }
  }

  lemma StepInv(pcbs: seq<Pcb>, pcbs': seq<Pcb>)
    requires Inv(pcbs) && Step(pcbs, pcbs')
    ensures Inv(pcbs')
  {
    hide Binds, Connects, Disconnected;
    if p: Pcb :| p.laddr == p.lport == p.faddr == p.fport == 0 && pcbs' == [p] + pcbs {
    } else if i: nat, ours, addr, port, err :|
                   i < |pcbs| && err != Hangs && Binds(pcbs, i, ours, addr, port, pcbs', err) {
      BindsInv(pcbs, i, ours, addr, port, pcbs', err);
    } else if i: nat, ours, to, port, via, err :|
                   i < |pcbs| && err != Hangs && Connects(pcbs, i, ours, to, port, via, pcbs', err) {
      ConnectsInv(pcbs, i, ours, to, port, via, pcbs', err);
    } else {
      var i: nat, gone :| i < |pcbs| && pcbs' == Disconnected(pcbs, i, gone);
      DisconnectedInv(pcbs, i, gone);
    }
  }

  /** In every history that starts without endpoints, connections are unique at all times. */
  lemma {:induction false} AlwaysUnique(h: seq<seq<Pcb>>, i: nat)
    requires h != [] && h[0] == [] && (forall k :: 0 <= k < |h| - 1 ==> Step(h[k], h[k + 1])) && i < |h|
    ensures Inv(h[i]) && Unique(h[i])
    decreases i
  {
    hide Step;
    if i > 0 {
      AlwaysUnique(h, i - 1);
      assert Step(h[i - 1], h[i - 1 + 1]);
      StepInv(h[i - 1], h[i]);
    }
  }

  // ----- the list in place

  class Pcbs {
    var inp: seq<Pcb>
    var head_lport: nat

    constructor ()
      ensures inp == [] && head_lport == 0
    {
      inp, head_lport := [], 0;
    }

    /** `yhin_pcblookup` */
    method Lookup(q: Query, wild: bool) returns (m: Option<nat>)
      ensures m.None? <==> !Matched(inp, q, wild)
      ensures m.Some? ==> Best(inp, q, wild, m.value)
    {
      var matchwild, i := 3, 0;
      m := None;
      while i < |inp|
        invariant i <= |inp| && (m.None? ==> matchwild == 3)
        invariant m.None? <==> !exists j :: 0 <= j < i && Eligible(inp[j], q, wild)
        invariant m.Some? ==> m.value < i && Best(inp[..i], q, wild, m.value) && matchwild == Wildcards(inp[m.value], q)
      {
        var p := inp[i];
        ghost var before := m;
        if Eligible(p, q, wild) {
          var w := Wildcard(p, q);
          if w < matchwild {
            m, matchwild := Some(i), w;
            if matchwild == 0 {
              BestExact(inp, q, wild, i);
              return;
            }
          }
        }
        BestNext(inp, q, wild, i, before, m);
        i := i + 1;
      }
      assert inp[..i] == inp;
    }

    /** The count of wildcards, branch by branch. */
    static method Wildcard(p: Pcb, q: Query) returns (w: nat)
      ensures w == Wildcards(p, q)
    {
      w := 0;
      if p.laddr != 0 {
        if q.laddr == 0 {
          w := w + 1;
        }
      } else if q.laddr != 0 {
        w := w + 1;
      }
      if p.faddr != 0 {
        if q.faddr == 0 {
          w := w + 1;
        }
      } else if q.faddr != 0 {
        w := w + 1;
      }
    }

    /** The loop that looks for a port to give out.  When it has been all the way round and found none, it is
        where it began and will never end: nothing is given out. */
    method Ephemeral(laddr: nat) returns (lport: Option<nat>)
      modifies `head_lport
      ensures lport.Some? <==> SomeFree(inp, laddr)
      ensures lport.Some? ==> RESERVED <= lport.value <= USERRESERVED && Free(inp, laddr, lport.value)
      ensures lport.Some? ==> head_lport == lport.value
    {
      ghost var last := head_lport;
      for n := 0 to USERRESERVED - RESERVED + 1
        invariant head_lport == if n == 0 then last else Ports(last, n - 1)
        invariant forall k :: 0 <= k < n ==> !Free(inp, laddr, Ports(last, k))
      {
        PortsNext(last, n);
        head_lport := NextPort(head_lport);
        StaysInRange(last, n);
        var m := Lookup(Query(0, 0, laddr, head_lport), true);
        if m.None? {
          assert Free(inp, laddr, head_lport);
          return Some(head_lport);
        }
      }
      AllTried(inp, laddr, last);
      lport := None;
    }

    /** `yhin_pcbbind` with a name; port 0 asks for one to be given out. */
    method Bind(i: nat, ours: set<nat>, addr0: nat, port: nat) returns (err: Error)
      requires i < |inp|
      modifies this
      ensures Binds(old(inp), i, ours, addr0, port, inp, err) && |inp| == |old(inp)|
    {
      hide Matched, GivesPort, Best, Eligible;
      var addr, lport := addr0, 0;
      err := Ok;
      if inp[i].lport != 0 || inp[i].laddr != 0 {
        return EINVAL;
      }
      if addr != 0 && addr !in ours {
        if inp[i].socket {
          return EADDRNOTAVAIL;
        }
        addr := 0;
      }
      lport := port;
      if lport != 0 {
        if lport < RESERVED && !inp[i].priv {
          return EACCES;
        }
        var wild := false;
        if !inp[i].reuse && (!inp[i].connreq || !inp[i].accept) {
          wild := true;
        }
        var m := Lookup(Query(0, 0, addr, lport), wild);
        if m.Some? {
          if inp[i].socket {
            return EADDRINUSE;
          }
          lport := 0;
        }
      }
      assert addr == BindAddr(inp[i], ours, addr0);
      inp := inp[i := inp[i].(laddr := addr)];
      if lport == 0 {
        err := GivePort(i, addr);
      } else {
        inp := inp[i := inp[i].(lport := lport)];
        assert inp == old(inp)[i := old(inp)[i].(laddr := addr, lport := lport)];
      }
    }

    /** `noname:` with no port asked for. */
    method GivePort(i: nat, a: nat) returns (err: Error)
      requires i < |inp|
      modifies this
      ensures GivesPort(old(inp), i, a, inp, err) && |inp| == |old(inp)|
    {
      hide SomeFree, Free;
      var given := Ephemeral(a);
      if given.None? {
        return Hangs;
      }
      inp := inp[i := inp[i].(lport := given.value)];
      err := Ok;
    }

    /** `yhin_pcbconnect`, from where the destination and the interface to it are known. */
    method Connect(i: nat, ours: set<nat>, to: nat, port: nat, via: Option<nat>) returns (err: Error)
      requires i < |inp|
      modifies this
      ensures Connects(old(inp), i, ours, to, port, via, inp, err)
    {
      hide Matched, BindsAndConnects;
      ghost var start := inp;
      if port == 0 {
        return EADDRNOTAVAIL;
      }
      if inp[i].laddr == 0 && via.None? {
        return EADDRNOTAVAIL;
      }
      var l := if inp[i].laddr != 0 then inp[i].laddr else via.value;
      var m := Lookup(Query(to, port, l, inp[i].lport), false);
      if m.Some? {
        return EADDRINUSE;
      }
      if inp[i].laddr == 0 && inp[i].lport != 0 {
        inp := inp[i := inp[i].(laddr := via.value)];
      }
      if inp[i].laddr == 0 {
        assert inp == start[i := start[i].(laddr := 0)] == start;
        err := BindFirst(i, ours, l, to, port);
      } else {
        inp := inp[i := inp[i].(faddr := to, fport := port)];
        assert inp == start[i := start[i].(laddr := l, faddr := to, fport := port)];
        assert l != 0;
        err := Ok;
      }
    }

    /** A local address and a port first. */
    method BindFirst(i: nat, ours: set<nat>, l: nat, to: nat, port: nat) returns (err: Error)
      requires i < |inp|
      modifies this
      ensures BindsAndConnects(old(inp)[i := old(inp)[i].(lport := 0)], i, ours, l, to, port, inp, err)
    {
      hide Binds, BindsAndConnects;
      inp := inp[i := inp[i].(lport := 0)];
      ghost var start := inp;
      err := Bind(i, ours, l, 0);
      ghost var mid := inp;
      BoundFirst(start, i, ours, l, to, port, mid, err);
      if err == Ok {
        inp := inp[i := inp[i].(faddr := to, fport := port)];
      }
    }

    /** `yhin_pcbdisconnect`, and `yhin_pcbdetach` when no user is left. */
    method Disconnect(i: nat, nofdref: bool)
      requires i < |inp|
      modifies `inp
      ensures inp == Disconnected(old(inp), i, nofdref)
    {
      inp := inp[i := inp[i].(faddr := 0, fport := 0)];
      if nofdref {
        inp := inp[..i] + inp[i + 1..];
      }
    }
  }

  lemma BoundFirst(pcbs: seq<Pcb>, i: nat, ours: set<nat>, l: nat, to: nat, port: nat, mid: seq<Pcb>, err: Error)
    requires i < |pcbs| == |mid| && Binds(pcbs, i, ours, l, 0, mid, err)
    ensures BindsAndConnects(pcbs, i, ours, l, to, port,
                             if err == Ok then mid[i := mid[i].(faddr := to, fport := port)] else mid, err)
  {
  }

  lemma BestExact(pcbs: seq<Pcb>, q: Query, wild: bool, i: nat)
    requires i < |pcbs| && Eligible(pcbs[i], q, wild) && Wildcards(pcbs[i], q) == 0
    requires forall j :: 0 <= j < i && Eligible(pcbs[j], q, wild) ==> Wildcards(pcbs[j], q) > 0
    ensures Best(pcbs, q, wild, i) && Matched(pcbs, q, wild)
  {
  }

  lemma BestNext(pcbs: seq<Pcb>, q: Query, wild: bool, i: nat, before: Option<nat>, m: Option<nat>)
    requires i < |pcbs|
    requires before.None? ==> !exists j :: 0 <= j < i && Eligible(pcbs[j], q, wild)
    requires before.Some? ==> before.value < i && Best(pcbs[..i], q, wild, before.value)
    requires if Eligible(pcbs[i], q, wild) && (before.None? || Wildcards(pcbs[i], q) < Wildcards(pcbs[before.value], q))
             then m == Some(i) else m == before
    ensures m.Some? ==> m.value < i + 1 && Best(pcbs[..i + 1], q, wild, m.value)
  {
    hide Eligible, Wildcards;
    var x, y := pcbs[..i], pcbs[..i + 1];
    assert forall j :: 0 <= j < i ==> x[j] == pcbs[j] == y[j];
  }
}
