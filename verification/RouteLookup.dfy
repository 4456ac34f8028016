/** What `yhrtalloc` finds and what `yhrtrequest` is about, in terms of networks and not of keys and buckets. */
module RouteLookup {
  import opened Wrappers
  import opened RouteKeys
  import opened Route

  // ----- routes found

  /** An entry that is up, over an interface that is up, to a host or to the network of an address. */
  ghost predicate Serves(ifs: seq<If>, e: Rt, host: bool, dst: bv32) {
    e.up && e.prov < |ifs| && ifs[e.prov].up && if host then e.dst == dst else SameNetwork(ifs, e.dst, dst)
  }

  ghost predicate NoneServes(ids: seq<nat>, rt: Blocks, ifs: seq<If>, host: bool, dst: bv32) {
    forall i :: 0 <= i < |ids| ==> !Serves(ifs, At(rt, ids[i]), host, dst)
  }

  /** `id` is the newest that does. */
  ghost predicate Newest(id: nat, ids: seq<nat>, rt: Blocks, ifs: seq<If>, host: bool, dst: bv32) {
    exists i :: 0 <= i < |ids| && ids[i] == id && Serves(ifs, At(rt, id), host, dst)
                && NoneServes(ids[..i], rt, ifs, host, dst)
  }

  function WantOf(ifs: seq<If>, host: bool, dst: bv32): Want {
    if host then Host(dst) else Net(NetOf(ifs, dst))
  }

  lemma ServesHit(ifs: seq<If>, e: Rt, host: bool, dst: bv32)
    ensures Serves(ifs, e, host, dst) <==> Usable(ifs, e) && Hit(ifs, e, WantOf(ifs, host, dst))
  {
    hide NetOf, SameNetwork;
    NetMatch(ifs, e.dst, dst);
  }

  lemma NoneServesMore(ids: seq<nat>, rt: Blocks, ifs: seq<If>, host: bool, dst: bv32)
    requires ids != []
    ensures NoneServes(ids, rt, ifs, host, dst)
            <==> !Serves(ifs, At(rt, ids[0]), host, dst) && NoneServes(ids[1..], rt, ifs, host, dst)
  {
    hide Serves;
    assert forall i :: 0 < i < |ids| ==> ids[i] == ids[1..][i - 1];
  }

  lemma NewestMore(id: nat, ids: seq<nat>, rt: Blocks, ifs: seq<If>, host: bool, dst: bv32)
    requires ids != [] && !Serves(ifs, At(rt, ids[0]), host, dst) && Newest(id, ids[1..], rt, ifs, host, dst)
    ensures Newest(id, ids, rt, ifs, host, dst)
  {
    hide Serves, NoneServes;
    var i :| 0 <= i < |ids[1..]| && ids[1..][i] == id && Serves(ifs, At(rt, id), host, dst)
             && NoneServes(ids[1..][..i], rt, ifs, host, dst);
    assert ids[..i + 1][1..] == ids[1..][..i];
    NoneServesMore(ids[..i + 1], rt, ifs, host, dst);
    assert ids[i + 1] == id;
  }

  lemma NewestHere(ids: seq<nat>, rt: Blocks, ifs: seq<If>, host: bool, dst: bv32)
    requires ids != [] && Serves(ifs, At(rt, ids[0]), host, dst)
    ensures Newest(ids[0], ids, rt, ifs, host, dst)
  {
    hide Serves;
    assert NoneServes(ids[..0], rt, ifs, host, dst);
  }

  lemma {:induction false} ScanIs(ids: seq<nat>, rt: Blocks, ifs: seq<If>, host: bool, dst: bv32)
    ensures match Scan(ids, rt, ifs, WantOf(ifs, host, dst))
            case None => NoneServes(ids, rt, ifs, host, dst)
            case Some(id) => Newest(id, ids, rt, ifs, host, dst)
    decreases |ids|
  {
    hide Serves, Usable, Hit, WantOf, Newest, NoneServes;
    if ids == [] {
      NoneAtAll(rt, ifs, host, dst);
    } else {
      ServesHit(ifs, At(rt, ids[0]), host, dst);
      if Serves(ifs, At(rt, ids[0]), host, dst) {
        NewestHere(ids, rt, ifs, host, dst);
      } else {
        ScanIs(ids[1..], rt, ifs, host, dst);
        NoneServesMore(ids, rt, ifs, host, dst);
        var r := Scan(ids[1..], rt, ifs, WantOf(ifs, host, dst));
        if r.Some? {
          NewestMore(r.value, ids, rt, ifs, host, dst);
        }
      }
    }
  }

  lemma NoneAtAll(rt: Blocks, ifs: seq<If>, host: bool, dst: bv32)
    ensures NoneServes([], rt, ifs, host, dst)
  {
  }

  /** `yhrtalloc` finds the newest usable route to the host; if there is none, the newest to its network; if there is
      none of these either, the newest default route, which is one to network 0; and nothing if there is none at
      all.  It never finds a route to another network. */
  lemma FoundIs(t: Table, ifs: seq<If>, dst: bv32)
    requires Indexed(t, ifs)
    ensures match Found(t, ifs, dst)
            case Some(id) =>
              Newest(id, t.hosts, t.rt, ifs, true, dst)
              || (NoneServes(t.hosts, t.rt, ifs, true, dst)
                  && (Newest(id, t.nets, t.rt, ifs, false, dst)
                      || (NoneServes(t.nets, t.rt, ifs, false, dst) && Newest(id, t.nets, t.rt, ifs, false, 0))))
            case None =>
              NoneServes(t.hosts, t.rt, ifs, true, dst) && NoneServes(t.nets, t.rt, ifs, false, dst)
              && NoneServes(t.nets, t.rt, ifs, false, 0)
  {
    hide Found, Scan, Newest, NoneServes, Indexed;
    HashedIsLinear(t, ifs, dst);
    ScanIs(t.hosts, t.rt, ifs, true, dst);
    ScanIs(t.nets, t.rt, ifs, false, dst);
    ScanIs(t.nets, t.rt, ifs, false, 0);
  }

  /** Usable: the route that a table with one to the destination's network, and none to the host, gives. */
  lemma NetworkRouteFound(t: Table, ifs: seq<If>, dst: bv32, i: nat)
    requires Indexed(t, ifs) && NoneServes(t.hosts, t.rt, ifs, true, dst)
    requires i < |t.nets| && Serves(ifs, At(t.rt, t.nets[i]), false, dst)
    ensures var r := Found(t, ifs, dst);
            r.Some? && Serves(ifs, At(t.rt, r.value), false, dst)
  {
    hide Found, Serves, Indexed;
    FoundIs(t, ifs, dst);
  }

  // ----- requests

  /** What a request to add or delete is about: an entry of its kind, to the same host or network, by the same
      gateway. */
  ghost predicate Same(ifs: seq<If>, e: Rt, host: bool, dst: bv32, gw: bv32) {
    e.gw == gw && if host then e.dst == dst else SameNetwork(ifs, e.dst, dst)
  }

  lemma SameAbout(ifs: seq<If>, e: Rt, host: bool, dst: bv32, gw: bv32)
    ensures Same(ifs, e, host, dst, gw) <==> About(ifs, e, host, dst, gw)
  {
    hide NetOf, SameNetwork;
    NetMatch(ifs, e.dst, dst);
  }

  /** A request finds such an entry exactly when there is one. */
  lemma RequestIs(t: Table, ifs: seq<If>, host: bool, dst: bv32, gw: bv32)
    requires Indexed(t, ifs) && Bucket(RequestHash(ifs, host, dst)) < RTHASHSIZ
    ensures var h, ids := RequestHash(ifs, host, dst), if host then t.hosts else t.nets;
            var r := Locate(if host then t.yhrthost[Bucket(h)] else t.yhrtnet[Bucket(h)], t.rt, ifs, host, dst, gw, h);
            (r.None? <==> forall i :: 0 <= i < |ids| ==> !Same(ifs, At(t.rt, ids[i]), host, dst, gw))
            && (r.Some? ==> r.value in ids && Same(ifs, At(t.rt, r.value), host, dst, gw))
  {
    var ids := if host then t.hosts else t.nets;
    hide Bucket, Locate, Chain, NetOf, RequestHash, About, Same, Hashed, NoTwice;
    LocateEnough(ids, t.rt, ifs, host, dst, gw);
    forall id
      ensures Same(ifs, At(t.rt, id), host, dst, gw) <==> About(ifs, At(t.rt, id), host, dst, gw)
    {
      SameAbout(ifs, At(t.rt, id), host, dst, gw);
    }
  }

  // ----- no route twice

  predicate Alike(ifs: seq<If>, e: Rt, f: Rt, host: bool) {
    About(ifs, e, host, f.dst, f.gw)
  }

  /** No two entries of a list are about the same. */
  ghost predicate Single(ids: seq<nat>, rt: Blocks, ifs: seq<If>, host: bool) {
    forall x, y :: x in ids && y in ids && x != y ==> !Alike(ifs, At(rt, x), At(rt, y), host)
  }

  ghost predicate SingleTable(t: Table, ifs: seq<If>) {
    Single(t.hosts, t.rt, ifs, true) && Single(t.nets, t.rt, ifs, false)
  }

  /** Entries that stay go where they went. */
  ghost predicate RoutesStay(ids: seq<nat>, keep: seq<nat>, rt: Blocks, rt': Blocks) {
    forall x :: x in keep ==> x in ids && At(rt', x).dst == At(rt, x).dst && At(rt', x).gw == At(rt, x).gw
  }

  lemma SingleStays(ids: seq<nat>, keep: seq<nat>, rt: Blocks, rt': Blocks, ifs: seq<If>, host: bool)
    requires Single(ids, rt, ifs, host) && RoutesStay(ids, keep, rt, rt')
    ensures Single(keep, rt', ifs, host)
  {
    hide NetOf;
    forall x, y | x in keep && y in keep && x != y
      ensures !Alike(ifs, At(rt', x), At(rt', y), host)
    {
      assert !Alike(ifs, At(rt, x), At(rt, y), host);
    }
  }

  lemma SingleAdds(ids: seq<nat>, rt: Blocks, ifs: seq<If>, host: bool, id: nat, e: Rt)
    requires Single(ids, rt, ifs, host) && id !in rt && id !in ids && !Known(ids, rt, ifs, host, e.dst, e.gw)
    ensures Single([id] + ids, rt[id := e], ifs, host)
  {
    hide NetOf;
    var rt', more := rt[id := e], [id] + ids;
    forall x, y | x in more && y in more && x != y
      ensures !Alike(ifs, At(rt', x), At(rt', y), host)
    {
      if x != id && y != id {
        assert !Alike(ifs, At(rt, x), At(rt, y), host);
      } else if x == id {
        var i :| 0 <= i < |ids| && ids[i] == y;
        assert !About(ifs, At(rt, ids[i]), host, e.dst, e.gw);
      } else {
        var i :| 0 <= i < |ids| && ids[i] == x;
        assert !About(ifs, At(rt, ids[i]), host, e.dst, e.gw);
      }
    }
  }

  lemma StaysTable(t: Table, u: Table, ifs: seq<If>)
    requires SingleTable(t, ifs) && RoutesStay(t.hosts, u.hosts, t.rt, u.rt) && RoutesStay(t.nets, u.nets, t.rt, u.rt)
    ensures SingleTable(u, ifs)
  {
    hide Single, RoutesStay;
    SingleStays(t.hosts, u.hosts, t.rt, u.rt, ifs, true);
    SingleStays(t.nets, u.nets, t.rt, u.rt, ifs, false);
  }

  lemma AllocStays(t: Table, ifs: seq<If>, slot: nat, dst: bv32)
    requires |t.yhrthost| == RTHASHSIZ && |t.yhrtnet| == RTHASHSIZ && SingleTable(t, ifs)
    ensures SingleTable(Alloc(t, ifs, slot, dst), ifs)
  {
    var u := Alloc(t, ifs, slot, dst);
    hide Found, SingleTable;
    StaysTable(t, u, ifs);
  }

  lemma CopyStays(t: Table, ifs: seq<If>, slot: nat, msg: nat)
    requires SingleTable(t, ifs)
    ensures SingleTable(Copied(t, slot, msg), ifs)
  {
    hide SingleTable;
    StaysTable(t, Copied(t, slot, msg), ifs);
  }

  lemma FreeStays(t: Table, ifs: seq<If>, slot: nat)
    requires Inv(t, ifs) && SingleTable(t, ifs) && slot in t.held
    ensures SingleTable(Free(t, slot), ifs)
  {
    hide SingleTable, Inv;
    Unlisted(t, ifs, slot);
    StaysTable(t, Free(t, slot), ifs);
  }

  /** What is held is there, and on no list when it is dead. */
  lemma Unlisted(t: Table, ifs: seq<If>, slot: nat)
    requires Inv(t, ifs) && slot in t.held
    ensures var id := t.held[slot]; id in t.rt && (!t.rt[id].up ==> id !in t.hosts && id !in t.nets)
  {
    hide Indexed;
  }

  lemma UnlinkStays(t: Table, ifs: seq<If>, host: bool, b: nat, m: nat)
    requires SingleTable(t, ifs) && b < |t.yhrthost| && b < |t.yhrtnet| && m in t.rt
    requires m !in (if host then t.nets else t.hosts)
    ensures SingleTable(Unlink(t, host, b, m), ifs)
  {
    hide SingleTable;
    RemoveFacts(t.hosts, m);
    RemoveFacts(t.nets, m);
    hide Remove;
    StaysTable(t, Unlink(t, host, b, m), ifs);
  }

  lemma LinkStays(t: Table, ifs: seq<If>, b: nat, id: nat, e: Rt)
    requires Inv(t, ifs) && SingleTable(t, ifs) && id !in t.rt && b < |t.yhrthost| && b < |t.yhrtnet|
    requires !Known(if e.host then t.hosts else t.nets, t.rt, ifs, e.host, e.dst, e.gw)
    ensures SingleTable(Link(t, b, id, e), ifs)
  {
    hide Known, Counted, Chain, NetOf, Single;
    assert id !in t.hosts && id !in t.nets;
    if e.host {
      SingleAdds(t.hosts, t.rt, ifs, true, id, e);
      SingleStays(t.nets, t.nets, t.rt, t.rt[id := e], ifs, false);
    } else {
      SingleAdds(t.nets, t.rt, ifs, false, id, e);
      SingleStays(t.hosts, t.hosts, t.rt, t.rt[id := e], ifs, true);
    }
  }

  lemma StepSingle(t: Table, u: Table, ifs: seq<If>)
    requires Inv(t, ifs) && SingleTable(t, ifs) && Step(t, u, ifs)
    ensures SingleTable(u, ifs)
  {
    hide SingleTable, Known, Alloc, Copied, Free, Link, Unlink, Bucket, Counted, HashOf;
    if AllocStep(t, u, ifs) {
      var slot, dst :| (slot in t.held ==> At(t.rt, t.held[slot]).up) && u == Alloc(t, ifs, slot, dst);
      AllocStays(t, ifs, slot, dst);
    } else if CopyStep(t, u) {
      var slot, msg :| msg !in t.held && u == Copied(t, slot, msg);
      CopyStays(t, ifs, slot, msg);
    } else if FreeStep(t, u) {
      var slot :| slot in t.held && u == Free(t, slot);
      FreeStays(t, ifs, slot);
    } else if AddStep(t, u, ifs) {
      var id, e: Rt :| id !in t.rt && e.hash == HashOf(ifs, e) && e.up && e.refcnt == 0
                       && !Known(if e.host then t.hosts else t.nets, t.rt, ifs, e.host, e.dst, e.gw)
                       && Bucket(e.hash) < |t.yhrthost| && Bucket(e.hash) < |t.yhrtnet|
                       && u == Link(t, Bucket(e.hash), id, e);
      LinkStays(t, ifs, Bucket(e.hash), id, e);
    } else {
      var m :| Linked(t, m) && m in t.rt
               && Bucket(t.rt[m].hash) < |t.yhrthost| && Bucket(t.rt[m].hash) < |t.yhrtnet|
               && u == Unlink(t, t.rt[m].host, Bucket(t.rt[m].hash), m);
      OtherList(t, ifs, m, t.rt[m].host);
      UnlinkStays(t, ifs, t.rt[m].host, Bucket(t.rt[m].hash), m);
    }
  }

  /** In every history no two entries are to the same host, or network, by the same gateway. */
  lemma {:induction false} AlwaysSingle(h: seq<Table>, ifs: seq<If>, i: nat)
    requires h != [] && h[0] == Empty() && (forall k :: 0 <= k < |h| - 1 ==> Step(h[k], h[k + 1], ifs)) && i < |h|
    ensures var t := h[i];
            (forall x, y :: x in t.hosts && y in t.hosts && x != y ==>
               !Same(ifs, At(t.rt, x), true, At(t.rt, y).dst, At(t.rt, y).gw))
            && (forall x, y :: x in t.nets && y in t.nets && x != y ==>
                  !Same(ifs, At(t.rt, x), false, At(t.rt, y).dst, At(t.rt, y).gw))
  {
    hide Step, Empty, SameNetwork, NetOf;
    SingleAlways(h, ifs, i);
    SingleSame(h[i], ifs);
  }

  lemma SingleSame(t: Table, ifs: seq<If>)
    requires SingleTable(t, ifs)
    ensures forall x, y :: x in t.hosts && y in t.hosts && x != y ==>
              !Same(ifs, At(t.rt, x), true, At(t.rt, y).dst, At(t.rt, y).gw)
    ensures forall x, y :: x in t.nets && y in t.nets && x != y ==>
              !Same(ifs, At(t.rt, x), false, At(t.rt, y).dst, At(t.rt, y).gw)
  {
    hide Same, About;
    forall x, y, host
      ensures Same(ifs, At(t.rt, x), host, At(t.rt, y).dst, At(t.rt, y).gw)
           == Alike(ifs, At(t.rt, x), At(t.rt, y), host)
    {
      SameAbout(ifs, At(t.rt, x), host, At(t.rt, y).dst, At(t.rt, y).gw);
    }
  }

  lemma {:induction false} SingleAlways(h: seq<Table>, ifs: seq<If>, i: nat)
    requires h != [] && h[0] == Empty() && (forall k :: 0 <= k < |h| - 1 ==> Step(h[k], h[k + 1], ifs)) && i < |h|
    ensures SingleTable(h[i], ifs)
    decreases i
  {
    hide Step, Inv;
    if i > 0 {
      SingleAlways(h, ifs, i - 1);
      AlwaysInv(h, ifs, i - 1);
      assert Step(h[i - 1], h[i - 1 + 1], ifs);
      StepSingle(h[i - 1], h[i], ifs);
    }
  }

  // ----- what adding and deleting do to the search

  lemma ServesMoved(t: Table, u: Table, ifs: seq<If>, ids: seq<nat>, host: bool, dst: bv32)
    requires forall i :: 0 <= i < |ids| ==> At(u.rt, ids[i]) == At(t.rt, ids[i])
    requires NoneServes(ids, t.rt, ifs, host, dst)
    ensures NoneServes(ids, u.rt, ifs, host, dst)
  {
    hide Serves;
  }

  /** A route that is added, over an interface that is up, is what is found from then on for its host; and for its
      network, where there is none to the host. */
  lemma AddedFound(t: Table, ifs: seq<If>, id: nat, e: Rt, dst: bv32)
    requires Inv(t, ifs) && id !in t.rt && e.hash == HashOf(ifs, e) && e.up && e.refcnt == 0
    requires Serves(ifs, e, e.host, dst) && (!e.host ==> NoneServes(t.hosts, t.rt, ifs, true, dst))
    ensures Bucket(e.hash) < RTHASHSIZ && |t.yhrthost| == RTHASHSIZ && |t.yhrtnet| == RTHASHSIZ
    ensures var u := Link(t, Bucket(e.hash), id, e);
            |u.yhrthost| == RTHASHSIZ && |u.yhrtnet| == RTHASHSIZ && Found(u, ifs, dst) == Some(id)
  {
    hide Indexed, Counted, Bucket, HashOf, Serves, NoneServes, Found;
    LinkInv(t, ifs, id, e);
    InvSizes(t, ifs);
    var u := Link(t, Bucket(e.hash), id, e);
    InvSizes(u, ifs);
    ListedThere(t, ifs);
    if e.host {
      NewestFirst(id, t.hosts, u.rt, ifs, true, dst);
    } else {
      ServesMoved(t, u, ifs, t.hosts, true, dst);
      NoNewest(t.hosts, u.rt, ifs, true, dst);
      NewestFirst(id, t.nets, u.rt, ifs, false, dst);
    }
    FoundIs(u, ifs, dst);
  }

  lemma ListedThere(t: Table, ifs: seq<If>)
    requires Indexed(t, ifs)
    ensures forall i :: 0 <= i < |t.hosts| ==> t.hosts[i] in t.rt
    ensures forall i :: 0 <= i < |t.nets| ==> t.nets[i] in t.rt
  {
    hide HashOf, Chain;
  }

  lemma NoNewest(ids: seq<nat>, rt: Blocks, ifs: seq<If>, host: bool, dst: bv32)
    requires NoneServes(ids, rt, ifs, host, dst)
    ensures forall x :: !Newest(x, ids, rt, ifs, host, dst)
  {
    hide Serves;
  }

  lemma HeadServes(ids: seq<nat>, rt: Blocks, ifs: seq<If>, host: bool, dst: bv32)
    requires ids != [] && Serves(ifs, At(rt, ids[0]), host, dst)
    ensures forall n :: 0 < n <= |ids| ==> !NoneServes(ids[..n], rt, ifs, host, dst)
  {
    hide Serves;
    assert forall n :: 0 < n <= |ids| ==> ids[..n][0] == ids[0];
  }

  /** Nobody but the entry at the head of a list that serves can be the newest. */
  lemma NewestFirst(id: nat, ids: seq<nat>, rt: Blocks, ifs: seq<If>, host: bool, dst: bv32)
    requires Serves(ifs, At(rt, id), host, dst)
    ensures !NoneServes([id] + ids, rt, ifs, host, dst)
    ensures forall x :: Newest(x, [id] + ids, rt, ifs, host, dst) ==> x == id
  {
    hide Serves, NoneServes;
    var all := [id] + ids;
    assert all[0] == id;
    HeadServes(all, rt, ifs, host, dst);
    forall x | Newest(x, all, rt, ifs, host, dst)
      ensures x == id
    {
      var i :| 0 <= i < |all| && all[i] == x && Serves(ifs, At(rt, x), host, dst)
               && NoneServes(all[..i], rt, ifs, host, dst);
    }
    assert all[..|all|] == all;
  }

  /** An entry that has been deleted is never found again. */
  lemma DeletedGone(t: Table, ifs: seq<If>, m: nat, dst: bv32)
    requires Inv(t, ifs) && Linked(t, m) && m in t.rt
    ensures Bucket(t.rt[m].hash) < RTHASHSIZ && |t.yhrthost| == RTHASHSIZ && |t.yhrtnet| == RTHASHSIZ
    ensures var u := Unlink(t, t.rt[m].host, Bucket(t.rt[m].hash), m);
            |u.yhrthost| == RTHASHSIZ && |u.yhrtnet| == RTHASHSIZ
            && Found(u, ifs, dst) != Some(m) && !Linked(u, m)
            && (m in u.rt <==> t.rt[m].refcnt > 0)
  {
    hide Indexed, Counted, Bucket, Found, Remove, Serves, NoneServes;
    InvSizes(t, ifs);
    LinkedWhere(t, ifs, m);
    OtherList(t, ifs, m, t.rt[m].host);
    UnlinkInv(t, ifs, m, t.rt[m].host);
    var u := Unlink(t, t.rt[m].host, Bucket(t.rt[m].hash), m);
    InvSizes(u, ifs);
    RemoveFacts(t.hosts, m);
    RemoveFacts(t.nets, m);
    FoundIs(u, ifs, dst);
  }
}
