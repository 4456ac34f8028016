/** What a bind promises: whose a port is, and which error is given when. */
module InPcbPorts {
  import opened Wrappers
  import opened InPcb

  /** q stands in the way of a port on an address: it has the port, on that address or with either of them any. */
  predicate Overlaps(q: Pcb, addr: nat, port: nat) {
    q.lport == port && (q.laddr == addr || q.laddr == 0 || addr == 0)
  }

  /** q has the port on the very same address, and no peer. */
  predicate Doubles(q: Pcb, addr: nat, port: nat) {
    q.lport == port && q.laddr == addr && q.faddr == 0
  }

  /** An endpoint that puts up with others: it has set SO_REUSEADDR, or it is of a protocol with connections and
      accepts them. */
  predicate Shares(p: Pcb) {
    p.reuse || (p.connreq && p.accept)
  }

  predicate Blocks(q: Pcb, p: Pcb, addr: nat, port: nat) {
    if Shares(p) then Doubles(q, addr, port) else Overlaps(q, addr, port)
  }

  ghost predicate Blocked(pcbs: seq<Pcb>, p: Pcb, addr: nat, port: nat) {
    exists j :: 0 <= j < |pcbs| && Blocks(pcbs[j], p, addr, port)
  }

  lemma BlocksIs(q: Pcb, p: Pcb, addr: nat, port: nat)
    ensures Blocks(q, p, addr, port) <==> Eligible(q, Query(0, 0, addr, port), WildBind(p))
  {
  }

  lemma InUseIs(pcbs: seq<Pcb>, p: Pcb, addr: nat, port: nat)
    ensures InUse(pcbs, p, addr, port) <==> Blocked(pcbs, p, addr, port)
  {
    hide Eligible, Blocks;
    forall q
      ensures Blocks(q, p, addr, port) <==> Eligible(q, Query(0, 0, addr, port), WildBind(p))
    {
      BlocksIs(q, p, addr, port);
    }
  }

  lemma FreeIs(pcbs: seq<Pcb>, addr: nat, port: nat)
    ensures Free(pcbs, addr, port) <==> forall j :: 0 <= j < |pcbs| ==> !Overlaps(pcbs[j], addr, port)
  {
    forall q: Pcb
      ensures Overlaps(q, addr, port) <==> Eligible(q, Query(0, 0, addr, port), true)
    {
    }
    hide Eligible, Overlaps;
  }

  /** The error of a bind, whatever the list: an endpoint is bound once; a socket's address must be ours; ports below
      1024 are for the privileged; and a socket's port must not be blocked by any endpoint. */
  lemma BindErrors(pcbs: seq<Pcb>, i: nat, ours: set<nat>, addr: nat, port: nat, pcbs': seq<Pcb>, err: Error)
    requires i < |pcbs| && Binds(pcbs, i, ours, addr, port, pcbs', err)
    ensures var p, a := pcbs[i], if addr in ours then addr else 0;
            var once := p.lport == 0 && p.laddr == 0;
            var known := addr == 0 || addr in ours || !p.socket;
            var allowed := port == 0 || port >= 1024 || p.priv;
            (err == EINVAL <==> !once)
            && (err == EADDRNOTAVAIL <==> once && !known)
            && (err == EACCES <==> once && known && !allowed)
            && (err == EADDRINUSE <==>
                  once && known && allowed && p.socket && port != 0 && Blocked(pcbs, p, a, port))
            && (err != Ok ==> pcbs' == pcbs || err == Hangs)
  {
    hide InUse, GivesPort, Blocked;
    var p, a := pcbs[i], if addr in ours then addr else 0;
    InUseIs(pcbs, p, a, port);
    assert p.lport == 0 && p.laddr == 0 && !Foreign(p, ours, addr) ==> BindAddr(p, ours, addr) == a;
    GivesPortErrors(pcbs[i := p.(laddr := a)], i, a, pcbs', err);
  }

  lemma GivesPortErrors(pcbs: seq<Pcb>, i: nat, a: nat, pcbs': seq<Pcb>, err: Error)
    requires i < |pcbs|
    ensures GivesPort(pcbs, i, a, pcbs', err) ==> err == Ok || err == Hangs
  {
  }

  /** No other endpoint is in the way of endpoint i. */
  ghost predicate Own(pcbs: seq<Pcb>, i: nat)
    requires i < |pcbs|
  {
    forall j :: 0 <= j < |pcbs| && j != i ==> !Overlaps(pcbs[j], pcbs[i].laddr, pcbs[i].lport)
  }

  ghost predicate OwnUnconnected(pcbs: seq<Pcb>, i: nat)
    requires i < |pcbs|
  {
    forall j :: 0 <= j < |pcbs| && j != i ==> !Doubles(pcbs[j], pcbs[i].laddr, pcbs[i].lport)
  }

  /** What a bind that goes well leaves.  Only the endpoint's own address and port change.  The port asked for is
      given exactly when nothing blocks it.  The port given is the endpoint's own: nobody else has it on the same
      address or with either address any, unless the endpoint shares and the port is the one asked for, when none
      without a peer has it on the very same address. */
  lemma BindOwn(pcbs: seq<Pcb>, i: nat, ours: set<nat>, addr: nat, port: nat, pcbs': seq<Pcb>)
    requires i < |pcbs| && Binds(pcbs, i, ours, addr, port, pcbs', Ok)
    ensures |pcbs'| == |pcbs|
    ensures var p, q, a := pcbs[i], pcbs'[i], if addr in ours then addr else 0;
            pcbs' == pcbs[i := q] && q == p.(laddr := a, lport := q.lport) && q.lport != 0
            && (port != 0 ==> (q.lport == port || 1024 <= q.lport <= 5000))
            && (port == 0 ==> 1024 <= q.lport <= 5000)
            && (port != 0 && !Blocked(pcbs, p, a, port) ==> q.lport == port)
            && (port != 0 && Blocked(pcbs, p, a, port) ==> Own(pcbs', i))
            && (port == 0 || !Shares(p) ==> Own(pcbs', i))
            && OwnUnconnected(pcbs', i)
  {
    hide Blocked, GivesPort, Overlaps, Doubles, Own, OwnUnconnected, InUse;
    var p, a := pcbs[i], if addr in ours then addr else 0;
    assert BindAddr(p, ours, addr) == a;
    InUseIs(pcbs, p, a, port);
    if port != 0 && !InUse(pcbs, p, a, port) {
      Unblocked(pcbs, i, a, port, pcbs');
    } else {
      Given(pcbs, i, a, pcbs');
    }
  }

  lemma OwnAlone(pcbs: seq<Pcb>, i: nat)
    requires i < |pcbs| && Own(pcbs, i)
    ensures OwnUnconnected(pcbs, i)
  {
  }

  lemma Unblocked(pcbs: seq<Pcb>, i: nat, a: nat, port: nat, pcbs': seq<Pcb>)
    requires i < |pcbs| && !Blocked(pcbs, pcbs[i], a, port)
    requires pcbs' == pcbs[i := pcbs[i].(laddr := a, lport := port)]
    ensures !Shares(pcbs[i]) ==> Own(pcbs', i)
    ensures OwnUnconnected(pcbs', i)
  {
    forall j | 0 <= j < |pcbs'| && j != i
      ensures !Blocks(pcbs'[j], pcbs[i], a, port)
    {
      assert pcbs'[j] == pcbs[j];
    }
  }

  lemma Given(pcbs: seq<Pcb>, i: nat, a: nat, pcbs': seq<Pcb>)
    requires i < |pcbs| && GivesPort(pcbs[i := pcbs[i].(laddr := a)], i, a, pcbs', Ok)
    ensures |pcbs'| == |pcbs| && pcbs' == pcbs[i := pcbs'[i]]
    ensures pcbs'[i] == pcbs[i].(laddr := a, lport := pcbs'[i].lport) && 1024 <= pcbs'[i].lport <= 5000
    ensures Own(pcbs', i) && OwnUnconnected(pcbs', i)
  {
    hide Free, SomeFree;
    var start := pcbs[i := pcbs[i].(laddr := a)];
    var n :| RESERVED <= n <= USERRESERVED && Free(start, a, n) && pcbs' == start[i := start[i].(lport := n)];
    FreeIs(start, a, n);
    assert pcbs' == pcbs[i := pcbs[i].(laddr := a, lport := n)];
    forall j | 0 <= j < |pcbs'| && j != i
      ensures !Overlaps(pcbs'[j], a, n)
    {
      assert pcbs'[j] == start[j];
    }
    OwnAlone(pcbs', i);
  }

  ghost predicate Overlapped(pcbs: seq<Pcb>, addr: nat, port: nat) {
    exists j :: 0 <= j < |pcbs| && Overlaps(pcbs[j], addr, port)
  }

  /** A bind never comes back exactly when it has to find a port, because none was asked for or that one is blocked,
      and somebody overlaps each from 1024 to 5000. */
  lemma BindHangs(pcbs: seq<Pcb>, i: nat, ours: set<nat>, addr: nat, port: nat, pcbs': seq<Pcb>, err: Error)
    requires i < |pcbs| && Binds(pcbs, i, ours, addr, port, pcbs', err)
    ensures var p, a := pcbs[i], if addr in ours then addr else 0;
            err == Hangs
            <==> p.lport == 0 && p.laddr == 0 && (addr == 0 || addr in ours || !p.socket)
                 && (port == 0 || port >= 1024 || p.priv) && (port == 0 || (!p.socket && Blocked(pcbs, p, a, port)))
                 && forall n :: 1024 <= n <= 5000 ==> Overlapped(pcbs, a, n)
  {
    hide Blocked, Free, Overlapped, InUse;
    var p, a := pcbs[i], if addr in ours then addr else 0;
    InUseIs(pcbs, p, a, port);
    assert p.lport == 0 && p.laddr == 0 && !Foreign(p, ours, addr) ==> BindAddr(p, ours, addr) == a;
    if p.lport == 0 {
      NoneLeft(pcbs, i, a);
    }
  }

  lemma NoneLeft(pcbs: seq<Pcb>, i: nat, a: nat)
    requires i < |pcbs| && pcbs[i].lport == 0
    ensures !SomeFree(pcbs[i := pcbs[i].(laddr := a)], a) <==> forall n :: 1024 <= n <= 5000 ==> Overlapped(pcbs, a, n)
  {
    hide Free, Overlapped;
    var start := pcbs[i := pcbs[i].(laddr := a)];
    forall n: nat | 1024 <= n <= 5000
      ensures Free(start, a, n) <==> !Overlapped(pcbs, a, n)
    {
      NotFree(pcbs, i, a, n);
    }
  }

  lemma NotFree(pcbs: seq<Pcb>, i: nat, a: nat, n: nat)
    requires i < |pcbs| && pcbs[i].lport == 0 && n > 0
    ensures Free(pcbs[i := pcbs[i].(laddr := a)], a, n) <==> !Overlapped(pcbs, a, n)
  {
    hide Free;
    var start := pcbs[i := pcbs[i].(laddr := a)];
    FreeIs(start, a, n);
    forall j | 0 <= j < |pcbs|
      ensures Overlaps(start[j], a, n) <==> Overlaps(pcbs[j], a, n)
    {
    }
  }

  // ----- over all histories

  /** Two endpoints that have a port, and each other's addresses in the way. */
  predicate Meet(p: Pcb, q: Pcb) {
    p.lport != 0 && Overlaps(q, p.laddr, p.lport)
  }

  /** Of two endpoints that meet at least one shares. */
  ghost predicate Apart(pcbs: seq<Pcb>) {
    forall i, j :: 0 <= i < |pcbs| && 0 <= j < |pcbs| && i != j && Meet(pcbs[i], pcbs[j]) ==>
                     Shares(pcbs[i]) || Shares(pcbs[j])
  }

  /** One endpoint changed, so that it meets no more than it met, or is alone or shares. */
  lemma ApartUpdate(pcbs: seq<Pcb>, i: nat, p: Pcb)
    requires Apart(pcbs) && i < |pcbs| && Shares(p) == Shares(pcbs[i])
    requires Shares(p) || forall j :: 0 <= j < |pcbs| && j != i && Meet(p, pcbs[j]) ==> Meet(pcbs[i], pcbs[j])
    ensures Apart(pcbs[i := p])
  {
    hide Shares;
    var r := pcbs[i := p];
    forall j, k | 0 <= j < |r| && 0 <= k < |r| && j != k && Meet(r[j], r[k])
      ensures Shares(r[j]) || Shares(r[k])
    {
      if k == i {
        assert Meet(p, pcbs[j]);
      }
    }
  }

  lemma OwnApart(pcbs: seq<Pcb>, i: nat, p: Pcb)
    requires Apart(pcbs) && i < |pcbs| && Shares(p) == Shares(pcbs[i]) && Own(pcbs[i := p], i)
    ensures Apart(pcbs[i := p])
  {
    var r := pcbs[i := p];
    forall j | 0 <= j < |pcbs| && j != i
      ensures !Meet(p, pcbs[j])
    {
      assert !Overlaps(r[j], p.laddr, p.lport);
    }
    hide Own, Meet, Overlaps, Shares;
    ApartUpdate(pcbs, i, p);
  }

  lemma BindsApart(pcbs: seq<Pcb>, i: nat, ours: set<nat>, addr: nat, port: nat, pcbs': seq<Pcb>, err: Error)
    requires Apart(pcbs) && i < |pcbs| && err != Hangs && Binds(pcbs, i, ours, addr, port, pcbs', err)
    ensures Apart(pcbs')
  {
    hide Apart, Binds, Own, OwnUnconnected, Blocked, Meet;
    if err == Ok {
      BindOwn(pcbs, i, ours, addr, port, pcbs');
      if Shares(pcbs[i]) {
        ApartUpdate(pcbs, i, pcbs'[i]);
      } else {
        OwnApart(pcbs, i, pcbs'[i]);
      }
    } else {
      BindErrors(pcbs, i, ours, addr, port, pcbs', err);
    }
  }

  lemma ConnectsApart(pcbs: seq<Pcb>, i: nat, ours: set<nat>, to: nat, port: nat, via: Option<nat>, pcbs': seq<Pcb>,
                      err: Error)
    requires Apart(pcbs) && i < |pcbs| && Bound(pcbs[i])
    requires err != Hangs && Connects(pcbs, i, ours, to, port, via, pcbs', err)
    ensures Apart(pcbs')
  {
    hide Matched, BindsAndConnects, Apart, Shares;
    var p := pcbs[i];
    if port != 0 && (p.laddr != 0 || via.Some?) {
      var l := if p.laddr != 0 then p.laddr else via.value;
      if !Matched(pcbs, Query(to, port, l, p.lport), false) {
        var q := if p.lport != 0 then p.(laddr := l) else p;
        if q.laddr != 0 {
          KeepsFlags(p, q.(faddr := to, fport := port));
          ApartUpdate(pcbs, i, q.(faddr := to, fport := port));
        } else {
          assert q == p;
          BoundApart(pcbs, i, ours, l, to, port, pcbs', err);
        }
      }
    }
  }

  lemma KeepsFlags(p: Pcb, q: Pcb)
    requires q == p.(laddr := q.laddr, lport := q.lport, faddr := q.faddr, fport := q.fport)
    ensures Shares(q) == Shares(p)
  {
  }

  lemma BoundApart(pcbs: seq<Pcb>, i: nat, ours: set<nat>, l: nat, to: nat, port: nat, pcbs': seq<Pcb>, err: Error)
    requires Apart(pcbs) && i < |pcbs| && pcbs[i].laddr == 0
    requires err != Hangs && BindsAndConnects(pcbs[i := pcbs[i].(lport := 0)], i, ours, l, to, port, pcbs', err)
    ensures Apart(pcbs')
  {
    hide Apart, Binds, Own, OwnUnconnected, Blocked, Shares;
    var p := pcbs[i];
    var start := pcbs[i := p.(lport := 0)];
    KeepsFlags(p, p.(lport := 0));
    ApartUpdate(pcbs, i, p.(lport := 0));
    var mid: seq<Pcb> :| Binds(start, i, ours, l, 0, mid, err) && |mid| == |start|
               && pcbs' == if err == Ok then mid[i := mid[i].(faddr := to, fport := port)] else mid;
    BindsApart(start, i, ours, l, 0, mid, err);
    if err == Ok {
      KeepsFlags(mid[i], mid[i].(faddr := to, fport := port));
      ApartUpdate(mid, i, mid[i].(faddr := to, fport := port));
    }
  }

  lemma DisconnectedApart(pcbs: seq<Pcb>, i: nat, gone: bool)
    requires Apart(pcbs) && i < |pcbs|
    ensures Apart(Disconnected(pcbs, i, gone))
  {
    hide Shares;
    if gone {
      var d := pcbs[..i] + pcbs[i + 1..];
      forall j, k | 0 <= j < |d| && 0 <= k < |d| && j != k && Meet(d[j], d[k])
        ensures Shares(d[j]) || Shares(d[k])
      {
        assert d[j] == pcbs[if j < i then j else j + 1] && d[k] == pcbs[if k < i then k else k + 1];
      }
    } else {
      KeepsFlags(pcbs[i], pcbs[i].(faddr := 0, fport := 0));
      hide Apart;
      ApartUpdate(pcbs, i, pcbs[i].(faddr := 0, fport := 0));
    }
  }

  lemma NewApart(pcbs: seq<Pcb>, p: Pcb)
    requires Apart(pcbs) && p.lport == 0
    ensures Apart([p] + pcbs)
  {
    hide Shares;
    var r := [p] + pcbs;
    forall j, k | 0 <= j < |r| && 0 <= k < |r| && j != k && Meet(r[j], r[k])
      ensures Shares(r[j]) || Shares(r[k])
    {
      assert j > 0 && k > 0 && r[j] == pcbs[j - 1] && r[k] == pcbs[k - 1];
    }
  }

  lemma StepApart(pcbs: seq<Pcb>, pcbs': seq<Pcb>)
    requires Inv(pcbs) && Apart(pcbs) && Step(pcbs, pcbs')
    ensures Apart(pcbs')
  {
    hide Binds, Connects, Disconnected, Apart;
    if p: Pcb :| p.laddr == p.lport == p.faddr == p.fport == 0 && pcbs' == [p] + pcbs {
      NewApart(pcbs, p);
    } else if i: nat, ours, addr, port, err :|
                   i < |pcbs| && err != Hangs && Binds(pcbs, i, ours, addr, port, pcbs', err) {
      BindsApart(pcbs, i, ours, addr, port, pcbs', err);
    } else if i: nat, ours, to, port, via, err :|
                   i < |pcbs| && err != Hangs && Connects(pcbs, i, ours, to, port, via, pcbs', err) {
      ConnectsApart(pcbs, i, ours, to, port, via, pcbs', err);
    } else {
      var i: nat, gone :| i < |pcbs| && pcbs' == Disconnected(pcbs, i, gone);
      DisconnectedApart(pcbs, i, gone);
    }
  }

  /** In every history: of two endpoints with the same port, on the same address or one of them on any, at least one
      shares.  So while nobody sets SO_REUSEADDR or accepts connections, a port and an address are one endpoint's
      own. */
  lemma {:induction false} AlwaysApart(h: seq<seq<Pcb>>, i: nat)
    requires h != [] && h[0] == [] && (forall k :: 0 <= k < |h| - 1 ==> Step(h[k], h[k + 1])) && i < |h|
    ensures Apart(h[i])
    ensures (forall j :: 0 <= j < |h[i]| ==> !Shares(h[i][j])) ==>
              forall j :: 0 <= j < |h[i]| && h[i][j].lport != 0 ==> Own(h[i], j)
    decreases i
  {
    hide Step, Inv;
    if i > 0 {
      AlwaysApart(h, i - 1);
      AlwaysUnique(h, i - 1);
      assert Step(h[i - 1], h[i - 1 + 1]);
      StepApart(h[i - 1], h[i]);
    }
  }

  // ----- connect, and who gets a segment

  /** q has these addresses and this local port, and the peer's port if it has a peer. */
  predicate Has(q: Pcb, laddr: nat, lport: nat, faddr: nat, fport: nat) {
    q.laddr == laddr && q.lport == lport && q.faddr == faddr && (faddr != 0 ==> q.fport == fport)
  }

  ghost predicate Somebody(pcbs: seq<Pcb>, laddr: nat, lport: nat, faddr: nat, fport: nat) {
    exists j :: 0 <= j < |pcbs| && Has(pcbs[j], laddr, lport, faddr, fport)
  }

  lemma ExactIs(pcbs: seq<Pcb>, q: Query)
    ensures Matched(pcbs, q, false) <==> Somebody(pcbs, q.laddr, q.lport, q.faddr, q.fport)
  {
    forall p: Pcb
      ensures Eligible(p, q, false) <==> Has(p, q.laddr, q.lport, q.faddr, q.fport)
    {
    }
    hide Eligible, Has;
  }

  /** Connecting: refused without a port to go to or a way there, and when somebody has the addresses and ports that
      it would have.  When it goes well the endpoint has its peer, a port, and the address that it had, or the one of
      the way there if it had none. */
  lemma ConnectIs(pcbs: seq<Pcb>, i: nat, ours: set<nat>, to: nat, port: nat, via: Option<nat>, pcbs': seq<Pcb>,
                  err: Error)
    requires i < |pcbs| && Bound(pcbs[i]) && Connects(pcbs, i, ours, to, port, via, pcbs', err)
    ensures var p := pcbs[i];
            if port == 0 || (p.laddr == 0 && via.None?) then err == EADDRNOTAVAIL && pcbs' == pcbs
            else
              var l := if p.laddr != 0 then p.laddr else via.value;
              (err == EADDRINUSE <==> Somebody(pcbs, l, p.lport, to, port))
              && (err == EADDRINUSE ==> pcbs' == pcbs)
              && (err == Ok ==> |pcbs'| == |pcbs| && Joined(p, pcbs'[i], l, to, port) && pcbs' == pcbs[i := pcbs'[i]])
  {
    hide Matched, BindsAndConnects, Somebody;
    var p := pcbs[i];
    if port != 0 && (p.laddr != 0 || via.Some?) {
      var l := if p.laddr != 0 then p.laddr else via.value;
      ExactIs(pcbs, Query(to, port, l, p.lport));
      if !Somebody(pcbs, l, p.lport, to, port) {
        var q := if p.lport != 0 then p.(laddr := l) else p;
        if q.laddr == 0 {
          assert q == p;
          BoundIs(pcbs, i, ours, l, to, port, pcbs', err);
        }
      }
    }
  }

  /** q is p connected over the address l. */
  predicate Joined(p: Pcb, q: Pcb, l: nat, to: nat, port: nat) {
    q.faddr == to && q.fport == port && q.lport != 0 && (q.laddr == l || (q.laddr == 0 && p.lport == 0))
    && (p.lport != 0 && l != 0 ==> q.laddr == l && q.lport == p.lport)
    && q == p.(laddr := q.laddr, lport := q.lport, faddr := q.faddr, fport := q.fport)
  }

  lemma BoundIs(pcbs: seq<Pcb>, i: nat, ours: set<nat>, l: nat, to: nat, port: nat, pcbs': seq<Pcb>, err: Error)
    requires i < |pcbs| && pcbs[i].laddr == 0 && (pcbs[i].lport == 0 || l == 0)
    requires BindsAndConnects(pcbs[i := pcbs[i].(lport := 0)], i, ours, l, to, port, pcbs', err)
    ensures err != EADDRINUSE
    ensures err == Ok ==> |pcbs'| == |pcbs| && Joined(pcbs[i], pcbs'[i], l, to, port) && pcbs' == pcbs[i := pcbs'[i]]
  {
    hide Binds, Own, OwnUnconnected, Blocked;
    var start := pcbs[i := pcbs[i].(lport := 0)];
    var mid: seq<Pcb> :| Binds(start, i, ours, l, 0, mid, err) && |mid| == |start|
               && pcbs' == if err == Ok then mid[i := mid[i].(faddr := to, fport := port)] else mid;
    BindErrors(start, i, ours, l, 0, mid, err);
    if err == Ok {
      BindOwn(start, i, ours, l, 0, mid);
      assert pcbs' == pcbs[i := pcbs'[i]];
    }
  }

  /** Who gets a segment: the endpoint connected to its sender, if there is one; otherwise one that waits on its
      address for anybody, or on any address for its sender; and only without these one that waits on any address for
      anybody. */
  lemma SegmentGoesTo(pcbs: seq<Pcb>, q: Query, r: nat)
    requires q.laddr != 0 && q.faddr != 0 && Best(pcbs, q, true, r)
    ensures if Somebody(pcbs, q.laddr, q.lport, q.faddr, q.fport)
            then Has(pcbs[r], q.laddr, q.lport, q.faddr, q.fport)
            else if Somebody(pcbs, q.laddr, q.lport, 0, 0) || Somebody(pcbs, 0, q.lport, q.faddr, q.fport)
            then Has(pcbs[r], q.laddr, q.lport, 0, 0) || Has(pcbs[r], 0, q.lport, q.faddr, q.fport)
            else Has(pcbs[r], 0, q.lport, 0, 0)
  {
    forall j | 0 <= j < |pcbs|
      ensures Eligible(pcbs[j], q, true) && Wildcards(pcbs[j], q) == 0
              <==> Has(pcbs[j], q.laddr, q.lport, q.faddr, q.fport)
      ensures Eligible(pcbs[j], q, true) && Wildcards(pcbs[j], q) == 1
              <==> Has(pcbs[j], q.laddr, q.lport, 0, 0) || Has(pcbs[j], 0, q.lport, q.faddr, q.fport)
      ensures Eligible(pcbs[j], q, true) && Wildcards(pcbs[j], q) == 2 <==> Has(pcbs[j], 0, q.lport, 0, 0)
    {
    }
    hide Eligible, Has;
  }

  /** Disconnecting leaves an endpoint its address and port, and no peer; one with no user goes, and no other. */
  lemma DisconnectIs(pcbs: seq<Pcb>, i: nat, gone: bool)
    requires i < |pcbs|
    ensures var r := Disconnected(pcbs, i, gone);
            if gone then
              |r| == |pcbs| - 1 && forall j :: 0 <= j < |r| ==> r[j] == pcbs[if j < i then j else j + 1]
            else
              |r| == |pcbs| && !Connected(r[i]) && r[i].laddr == pcbs[i].laddr && r[i].lport == pcbs[i].lport
              && forall j :: 0 <= j < |r| && j != i ==> r[j] == pcbs[j]
  {
  }
}
