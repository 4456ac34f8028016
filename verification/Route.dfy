/** The hashed route table: `yhrtalloc`, `yhrtfree` and `yhrtrequest`, without switched SLIP. */
module Route {
  import opened Wrappers
  import opened RouteKeys

  const RTHASHSIZ := 8

  /** A route entry; `prov` is the place of its interface. */
  datatype Rt = Rt(hash: bv32, dst: bv32, gw: bv32, host: bool, up: bool, refcnt: int, prov: nat)

  function Bucket(hash: bv32): nat {
    (hash & 7) as nat
  }

  // ----- lookup

  /** What a search is for: a host, or a network. */
  datatype Want = Host(dst: bv32) | Net(net: bv32)

  predicate Hit(ifs: seq<If>, e: Rt, w: Want) {
    match w
    case Host(d) => e.dst == d
    case Net(n) => NetOf(ifs, e.dst) == n
  }

  predicate Usable(ifs: seq<If>, e: Rt) {
    e.up && e.prov < |ifs| && ifs[e.prov].up
  }

  type Blocks = map<nat, Rt>

  function At(rt: Blocks, id: nat): Rt {
    if id in rt then rt[id] else Rt(0, 0, 0, false, false, 0, 0)
  }

  /** The first usable entry, of all in the order of the list, that is what is wanted. */
  function Scan(ids: seq<nat>, rt: Blocks, ifs: seq<If>, w: Want): Option<nat> {
    if ids == [] then None
    else if Usable(ifs, At(rt, ids[0])) && Hit(ifs, At(rt, ids[0]), w) then Some(ids[0])
    else Scan(ids[1..], rt, ifs, w)
  }

  /** The same along a bucket, where entries with another hash are passed over. */
  function Search(chain: seq<nat>, rt: Blocks, ifs: seq<If>, w: Want, hash: bv32): Option<nat> {
    if chain == [] then None
    else if At(rt, chain[0]).hash == hash && Usable(ifs, At(rt, chain[0])) && Hit(ifs, At(rt, chain[0]), w)
    then Some(chain[0])
    else Search(chain[1..], rt, ifs, w, hash)
  }

  /** What is in bucket b. */
  function Chain(ids: seq<nat>, rt: Blocks, b: nat): seq<nat> {
    if ids == [] then []
    else (if Bucket(At(rt, ids[0]).hash) == b then [ids[0]] else []) + Chain(ids[1..], rt, b)
  }

  function HashOf(ifs: seq<If>, e: Rt): bv32 {
    if e.host then e.dst else NetHash(ifs, e.dst)
  }

  function WantHash(w: Want): bv32 {
    match w
    case Host(d) => d
    case Net(n) => Shift(n)
  }

  /** Entries of one kind, hashed as they should be. */
  ghost predicate Hashed(ids: seq<nat>, rt: Blocks, ifs: seq<If>, host: bool) {
    forall i :: 0 <= i < |ids| ==> ids[i] in rt && rt[ids[i]].host == host && rt[ids[i]].hash == HashOf(ifs, rt[ids[i]])
  }

  /** Looking in one bucket finds what looking through all of them would. */
  lemma {:induction false} BucketEnough(ids: seq<nat>, rt: Blocks, ifs: seq<If>, w: Want)
    requires Hashed(ids, rt, ifs, w.Host?)
    ensures Search(Chain(ids, rt, Bucket(WantHash(w))), rt, ifs, w, WantHash(w)) == Scan(ids, rt, ifs, w)
    decreases |ids|
  {
    hide NetOf, Shift, Bucket, Usable;
    if ids != [] {
      var h, b := WantHash(w), Bucket(WantHash(w));
      BucketEnough(ids[1..], rt, ifs, w);
      var rest := Chain(ids[1..], rt, b);
      assert ([ids[0]] + rest)[1..] == rest;
      assert [] + rest == rest;
    }
  }

  function OrElse(x: Option<nat>, y: Option<nat>): Option<nat> {
    if x.Some? then x else y
  }

  /** The preference: a host route, a route to the network, the default. */
  function Linear(hosts: seq<nat>, nets: seq<nat>, rt: Blocks, ifs: seq<If>, dst: bv32): Option<nat> {
    OrElse(Scan(hosts, rt, ifs, Host(dst)),
           OrElse(Scan(nets, rt, ifs, Net(NetOf(ifs, dst))),
                  if dst != 0 then Scan(nets, rt, ifs, Net(NetOf(ifs, 0))) else None))
  }

  // ----- the table

  /** `hosts` and `nets` list the entries, the newest first; `held` is who holds a reference to what. */
  datatype Table = Table(yhrthost: seq<seq<nat>>, yhrtnet: seq<seq<nat>>, rt: Blocks, trash: int,
                         hosts: seq<nat>, nets: seq<nat>, held: map<nat, nat>)

  function Slots(held: map<nat, nat>, id: nat): set<nat> {
    set s | s in held && held[s] == id
  }

  function Dead(rt: Blocks): set<nat> {
    set id | id in rt && !rt[id].up
  }

  ghost predicate Linked(t: Table, id: nat) {
    id in t.hosts || id in t.nets
  }

  ghost predicate NoTwice(ids: seq<nat>) {
    forall i, j :: 0 <= i < j < |ids| ==> ids[i] != ids[j]
  }

  /** The buckets index the entries; what is in no bucket is held by somebody; references are counted, and so
      are the entries that are in no bucket any more. */
  ghost predicate Indexed(t: Table, ifs: seq<If>) {
    |t.yhrthost| == RTHASHSIZ && |t.yhrtnet| == RTHASHSIZ
    && (forall b :: 0 <= b < RTHASHSIZ ==>
          t.yhrthost[b] == Chain(t.hosts, t.rt, b) && t.yhrtnet[b] == Chain(t.nets, t.rt, b))
    && Hashed(t.hosts, t.rt, ifs, true) && Hashed(t.nets, t.rt, ifs, false) && NoTwice(t.hosts) && NoTwice(t.nets)
  }

  ghost predicate Referenced(rt: Blocks, held: map<nat, nat>) {
    (forall id :: id in rt ==> rt[id].refcnt == |Slots(held, id)|) && (forall s :: s in held ==> held[s] in rt)
    && (forall id :: id in rt && !rt[id].up ==> rt[id].refcnt > 0)
  }

  ghost predicate UpIsLinked(rt: Blocks, hosts: seq<nat>, nets: seq<nat>) {
    forall id :: id in rt ==> (rt[id].up <==> id in hosts || id in nets)
  }

  ghost predicate Counted(t: Table) {
    Referenced(t.rt, t.held) && UpIsLinked(t.rt, t.hosts, t.nets) && t.trash == |Dead(t.rt)|
  }

  ghost predicate Inv(t: Table, ifs: seq<If>) {
    Indexed(t, ifs) && Counted(t)
  }

  /** `yhrtalloc`: what is found for a route that has nothing usable yet. */
  function Found(t: Table, ifs: seq<If>, dst: bv32): Option<nat>
    requires |t.yhrthost| == RTHASHSIZ && |t.yhrtnet| == RTHASHSIZ
  {
    OrElse(Search(t.yhrthost[Bucket(dst)], t.rt, ifs, Host(dst), dst),
           OrElse(Search(t.yhrtnet[Bucket(NetHash(ifs, dst))], t.rt, ifs, Net(NetOf(ifs, dst)), NetHash(ifs, dst)),
                  if dst != 0 then Search(t.yhrtnet[Bucket(0)], t.rt, ifs, Net(NetOf(ifs, 0)), 0) else None))
  }

  lemma BucketRange(h: bv32)
    ensures Bucket(h) < RTHASHSIZ
  {
  }

  /** The hashed search agrees with the linear one. */
  lemma HashedIsLinear(t: Table, ifs: seq<If>, dst: bv32)
    requires Indexed(t, ifs)
    ensures Found(t, ifs, dst) == Linear(t.hosts, t.nets, t.rt, ifs, dst)
  {
    hide Search, Scan, NetOf, Shift, Bucket;
    BucketEnough(t.hosts, t.rt, ifs, Host(dst));
    BucketEnough(t.nets, t.rt, ifs, Net(NetOf(ifs, dst)));
    BucketEnough(t.nets, t.rt, ifs, Net(NetOf(ifs, 0)));
    DefaultKey(ifs);
    BucketRange(dst);
    BucketRange(NetHash(ifs, dst));
    BucketRange(0);
  }

  // ----- operations

  /** `yhrtalloc` for the route that `slot` caches.  Whatever it cached before is written over. */
  function Alloc(t: Table, ifs: seq<If>, slot: nat, dst: bv32): Table
    requires |t.yhrthost| == RTHASHSIZ && |t.yhrtnet| == RTHASHSIZ
  {
    if slot in t.held && At(t.rt, t.held[slot]).up then t
    else match Found(t, ifs, dst)
      case None => t
      case Some(id) => t.(rt := t.rt[id := At(t.rt, id).(refcnt := At(t.rt, id).refcnt + 1)],
                          held := t.held[slot := id])
  }

  /** `yhrtfree` of what `slot` caches. */
  function Free(t: Table, slot: nat): Table
    requires slot in t.held
  {
    var id := t.held[slot];
    var e := At(t.rt, id).(refcnt := At(t.rt, id).refcnt - 1);
    var h := t.held - {slot};
    if e.refcnt == 0 && !e.up then t.(rt := t.rt - {id}, held := h, trash := t.trash - 1)
    else t.(rt := t.rt[id := e], held := h)
  }

  /** The entry that a request is about. */
  predicate About(ifs: seq<If>, e: Rt, host: bool, dst: bv32, gw: bv32) {
    Hit(ifs, e, if host then Host(dst) else Net(NetOf(ifs, dst))) && e.gw == gw
  }

  function Locate(chain: seq<nat>, rt: Blocks, ifs: seq<If>, host: bool, dst: bv32, gw: bv32, hash: bv32): Option<nat> {
    if chain == [] then None
    else if At(rt, chain[0]).hash == hash && About(ifs, At(rt, chain[0]), host, dst, gw) then Some(chain[0])
    else Locate(chain[1..], rt, ifs, host, dst, gw, hash)
  }

  function RequestHash(ifs: seq<If>, host: bool, dst: bv32): bv32 {
    if host then dst else NetHash(ifs, dst)
  }

  /** Some entry of the list is what the request is about. */
  ghost predicate Known(ids: seq<nat>, rt: Blocks, ifs: seq<If>, host: bool, dst: bv32, gw: bv32) {
    exists i :: 0 <= i < |ids| && About(ifs, At(rt, ids[i]), host, dst, gw)
  }

  lemma KnownMore(ids: seq<nat>, rt: Blocks, ifs: seq<If>, host: bool, dst: bv32, gw: bv32)
    requires ids != []
    ensures Known(ids, rt, ifs, host, dst, gw)
            <==> About(ifs, At(rt, ids[0]), host, dst, gw) || Known(ids[1..], rt, ifs, host, dst, gw)
  {
    hide About;
    assert forall i :: 0 < i < |ids| ==> ids[i] == ids[1..][i - 1];
  }

  /** Looking in one bucket finds what a request is about, if it is in any. */
  lemma {:induction false} LocateEnough(ids: seq<nat>, rt: Blocks, ifs: seq<If>, host: bool, dst: bv32, gw: bv32)
    requires Hashed(ids, rt, ifs, host)
    ensures var h := RequestHash(ifs, host, dst);
            var r := Locate(Chain(ids, rt, Bucket(h)), rt, ifs, host, dst, gw, h);
            (r.Some? <==> Known(ids, rt, ifs, host, dst, gw))
            && (r.Some? ==> r.value in ids && About(ifs, At(rt, r.value), host, dst, gw))
    decreases |ids|
  {
    hide NetOf, Shift, Bucket, Known;
    var h := RequestHash(ifs, host, dst);
    if ids == [] {
      NothingKnown(rt, ifs, host, dst, gw);
    } else {
      LocateEnough(ids[1..], rt, ifs, host, dst, gw);
      KnownMore(ids, rt, ifs, host, dst, gw);
      var rest := Chain(ids[1..], rt, Bucket(h));
      assert ([ids[0]] + rest)[1..] == rest;
      assert [] + rest == rest;
    }
  }

  lemma NothingKnown(rt: Blocks, ifs: seq<If>, host: bool, dst: bv32, gw: bv32)
    ensures !Known([], rt, ifs, host, dst, gw)
  {
  }

  function Remove(ids: seq<nat>, m: nat): seq<nat> {
    if ids == [] then [] else (if ids[0] == m then [] else [ids[0]]) + Remove(ids[1..], m)
  }

  /** An entry taken out: freed, or kept as trash for those who hold it. */
  function Unlink(t: Table, host: bool, b: nat, m: nat): Table
    requires b < |t.yhrthost| && b < |t.yhrtnet|
  {
    var u := if host then t.(yhrthost := t.yhrthost[b := Remove(t.yhrthost[b], m)], hosts := Remove(t.hosts, m))
             else t.(yhrtnet := t.yhrtnet[b := Remove(t.yhrtnet[b], m)], nets := Remove(t.nets, m));
    u.(rt := Retired(t.rt, m), trash := if At(t.rt, m).refcnt > 0 then t.trash + 1 else t.trash)
  }

  function Retired(rt: Blocks, m: nat): Blocks {
    if At(rt, m).refcnt > 0 then rt[m := At(rt, m).(up := false)] else rt - {m}
  }

  function Pushed(chains: seq<seq<nat>>, h: nat, id: nat): (r: seq<seq<nat>>)
    ensures |r| == |chains|
  {
    if h < |chains| then chains[h := [id] + chains[h]] else chains
  }

  function Link(t: Table, b: nat, id: nat, e: Rt): Table
    requires b < |t.yhrthost| && b < |t.yhrtnet|
  {
    var u := t.(rt := t.rt[id := e]);
    if e.host then u.(yhrthost := Pushed(t.yhrthost, b, id), hosts := [id] + t.hosts)
    else u.(yhrtnet := Pushed(t.yhrtnet, b, id), nets := [id] + t.nets)
  }

  // ----- what they keep

  /** Nothing but reference counts and flags differs. */
  ghost predicate SameKeys(ids: seq<nat>, rt: Blocks, rt': Blocks) {
    forall i :: 0 <= i < |ids| ==>
      ids[i] in rt && ids[i] in rt'
      && rt'[ids[i]].hash == rt[ids[i]].hash && rt'[ids[i]].host == rt[ids[i]].host && rt'[ids[i]].dst == rt[ids[i]].dst
  }

  lemma {:induction false} ChainSame(ids: seq<nat>, rt: Blocks, rt': Blocks, b: nat)
    requires SameKeys(ids, rt, rt')
    ensures Chain(ids, rt', b) == Chain(ids, rt, b)
  {
    hide Bucket;
    if ids != [] {
      ChainSame(ids[1..], rt, rt', b);
    }
  }

  lemma {:induction false} ChainRemove(ids: seq<nat>, rt: Blocks, b: nat, m: nat)
    ensures Chain(Remove(ids, m), rt, b) == Remove(Chain(ids, rt, b), m)
  {
    hide Bucket;
    if ids != [] {
      ChainRemove(ids[1..], rt, b, m);
      assert Remove([], m) == [] && [ids[0]][1..] == [];
      assert Remove([ids[0]], m) == if ids[0] == m then [] else [ids[0]];
      RemoveJoin(if Bucket(At(rt, ids[0]).hash) == b then [ids[0]] else [], Chain(ids[1..], rt, b), m);
      if ids[0] != m {
        assert Remove(ids, m) == [ids[0]] + Remove(ids[1..], m);
        assert ([ids[0]] + Remove(ids[1..], m))[1..] == Remove(ids[1..], m);
      } else {
        assert [] + Remove(ids[1..], m) == Remove(ids[1..], m);
      }
      assert [] + Remove(Chain(ids[1..], rt, b), m) == Remove(Chain(ids[1..], rt, b), m);
    }
  }

  lemma {:induction false} RemoveJoin(x: seq<nat>, y: seq<nat>, m: nat)
    ensures Remove(x + y, m) == Remove(x, m) + Remove(y, m)
  {
    if x == [] {
      assert x + y == y && [] + Remove(y, m) == Remove(y, m);
    } else {
      var h, a, b := if x[0] == m then [] else [x[0]], Remove(x[1..], m), Remove(y, m);
      RemoveJoin(x[1..], y, m);
      assert (x + y)[1..] == x[1..] + y && (x + y)[0] == x[0];
      assert Remove(x + y, m) == h + (a + b) && Remove(x, m) == h + a;
      assert h + (a + b) == h + a + b;
    }
  }

  lemma {:induction false} RemoveFacts(ids: seq<nat>, m: nat)
    ensures forall id :: id in Remove(ids, m) <==> id in ids && id != m
    ensures NoTwice(ids) ==> NoTwice(Remove(ids, m))
    ensures m !in ids ==> Remove(ids, m) == ids
  {
    if ids != [] {
      RemoveFacts(ids[1..], m);
      assert ids == [ids[0]] + ids[1..];
      if NoTwice(ids) {
        assert ids[0] !in ids[1..];
      }
    }
  }

  /** A change of counts and flags leaves the index as it is. */
  lemma IndexedSame(t: Table, t': Table, ifs: seq<If>)
    requires Indexed(t, ifs) && t'.yhrthost == t.yhrthost && t'.yhrtnet == t.yhrtnet && t'.hosts == t.hosts
            && t'.nets == t.nets
    requires SameKeys(t.hosts, t.rt, t'.rt) && SameKeys(t.nets, t.rt, t'.rt)
    ensures Indexed(t', ifs)
  {
    hide Chain, NetOf, Shift;
    forall b | 0 <= b < RTHASHSIZ
      ensures t'.yhrthost[b] == Chain(t.hosts, t'.rt, b) && t'.yhrtnet[b] == Chain(t.nets, t'.rt, b)
    {
      ChainSame(t.hosts, t.rt, t'.rt, b);
      ChainSame(t.nets, t.rt, t'.rt, b);
    }
  }

  lemma SlotsPut(held: map<nat, nat>, slot: nat, id: nat)
    requires slot !in held
    ensures |Slots(held[slot := id], id)| == |Slots(held, id)| + 1
    ensures forall k :: k != id ==> Slots(held[slot := id], k) == Slots(held, k)
  {
    assert Slots(held[slot := id], id) == Slots(held, id) + {slot};
  }

  lemma SlotsTake(held: map<nat, nat>, slot: nat)
    requires slot in held
    ensures |Slots(held - {slot}, held[slot])| == |Slots(held, held[slot])| - 1
    ensures forall k :: k != held[slot] ==> Slots(held - {slot}, k) == Slots(held, k)
  {
    assert Slots(held - {slot}, held[slot]) == Slots(held, held[slot]) - {slot};
  }

  lemma {:induction false} ScanIn(ids: seq<nat>, rt: Blocks, ifs: seq<If>, w: Want)
    ensures var r := Scan(ids, rt, ifs, w);
            r.Some? ==> r.value in ids && At(rt, r.value).up
  {
    if ids != [] {
      ScanIn(ids[1..], rt, ifs, w);
    }
  }

  lemma FoundLinked(t: Table, ifs: seq<If>, dst: bv32)
    requires Indexed(t, ifs)
    ensures var r := Found(t, ifs, dst);
            r.Some? ==> Linked(t, r.value) && r.value in t.rt && t.rt[r.value].up
  {
    hide Scan, Found, NetOf;
    HashedIsLinear(t, ifs, dst);
    ScanIn(t.hosts, t.rt, ifs, Host(dst));
    ScanIn(t.nets, t.rt, ifs, Net(NetOf(ifs, dst)));
    ScanIn(t.nets, t.rt, ifs, Net(NetOf(ifs, 0)));
  }

  /** A count changed, of an entry that stays. */
  function Recount(rt: Blocks, id: nat, n: int): Blocks {
    rt[id := At(rt, id).(refcnt := n)]
  }

  lemma RecountFacts(t: Table, ifs: seq<If>, id: nat, n: int, held: map<nat, nat>)
    requires Inv(t, ifs) && id in t.rt
    ensures var u := t.(rt := Recount(t.rt, id, n), held := held);
            Indexed(u, ifs) && UpIsLinked(u.rt, u.hosts, u.nets) && Dead(u.rt) == Dead(t.rt)
  {
    hide Chain, Hashed, NoTwice, Referenced;
    var u := t.(rt := Recount(t.rt, id, n), held := held);
    KeysOf(t.hosts, t.rt, ifs, true, id, n);
    KeysOf(t.nets, t.rt, ifs, false, id, n);
    IndexedSame(t, u, ifs);
    assert forall k :: k in u.rt <==> k in t.rt;
    assert forall k :: k in t.rt ==> u.rt[k].up == t.rt[k].up;
  }

  lemma KeysOf(ids: seq<nat>, rt: Blocks, ifs: seq<If>, host: bool, id: nat, n: int)
    requires Hashed(ids, rt, ifs, host) && id in rt
    ensures SameKeys(ids, rt, Recount(rt, id, n))
  {
    hide HashOf;
  }

  lemma TakenReferenced(rt: Blocks, held: map<nat, nat>, slot: nat, id: nat)
    requires Referenced(rt, held) && slot !in held && id in rt
    ensures Referenced(Recount(rt, id, rt[id].refcnt + 1), held[slot := id])
  {
    SlotsPut(held, slot, id);
    hide Slots;
  }

  lemma Sizes(t: Table, ifs: seq<If>)
    requires Indexed(t, ifs)
    ensures |t.yhrthost| == RTHASHSIZ && |t.yhrtnet| == RTHASHSIZ
  {
  }

  lemma InvSizes(t: Table, ifs: seq<If>)
    requires Inv(t, ifs)
    ensures |t.yhrthost| == RTHASHSIZ && |t.yhrtnet| == RTHASHSIZ
  {
    hide Counted;
    Sizes(t, ifs);
  }

  /** Allocation keeps the books for a route that caches nothing, or something still up: which every caller
      sees to. */
  lemma AllocInv(t: Table, ifs: seq<If>, slot: nat, dst: bv32)
    requires Inv(t, ifs) && (slot in t.held ==> At(t.rt, t.held[slot]).up)
    ensures Inv(Alloc(t, ifs, slot, dst), ifs)
  {
    hide Found, Indexed, Referenced, UpIsLinked, Dead;
    FoundLinked(t, ifs, dst);
    assert |t.yhrthost| == RTHASHSIZ && |t.yhrtnet| == RTHASHSIZ by { Sizes(t, ifs); }
    var r := Found(t, ifs, dst);
    if slot !in t.held && r.Some? {
      var id := r.value;
      RecountFacts(t, ifs, id, t.rt[id].refcnt + 1, t.held[slot := id]);
      TakenReferenced(t.rt, t.held, slot, id);
    }
  }

  /** For a route that caches an entry that has been taken out, allocation loses a reference whenever it
      finds another: the old entry stays counted, and is never freed. */
  lemma AllocLeaks(t: Table, ifs: seq<If>, slot: nat, dst: bv32)
    requires Inv(t, ifs) && slot in t.held && !t.rt[t.held[slot]].up
    ensures |t.yhrthost| == RTHASHSIZ && |t.yhrtnet| == RTHASHSIZ
    ensures Inv(Alloc(t, ifs, slot, dst), ifs) <==> Found(t, ifs, dst).None?
    ensures Found(t, ifs, dst).Some? ==>
              var u, old' := Alloc(t, ifs, slot, dst), t.held[slot];
              u.rt[old'].refcnt == |Slots(u.held, old')| + 1
  {
    FoundLinked(t, ifs, dst);
    assert |t.yhrthost| == RTHASHSIZ && |t.yhrtnet| == RTHASHSIZ;
    hide Found, NetOf, Shift, Indexed;
    var r := Found(t, ifs, dst);
    if r.Some? {
      var id := t.held[slot];
      var u := Alloc(t, ifs, slot, dst);
      assert Slots(u.held, id) == Slots(t.held, id) - {slot};
      assert slot in Slots(t.held, id);
      assert id in u.rt && u.rt[id] == t.rt[id];
    }
  }

  /** A host route made, taken up by slot 0, and deleted; another to the same host made. */
  function Remade(e: Rt): Table {
    var b := Bucket(e.hash);
    BucketRange(e.hash);
    var t := Table(Empty().yhrthost[b := [1]], Empty().yhrtnet, map[0 := e.(up := false, refcnt := 1), 1 := e], 1,
                   [1], [], map[0 := 0]);
    t
  }

  lemma OneSlot(id: nat)
    ensures Slots(map[0 := 0], id) == if id == 0 then {0} else {}
  {
  }

  lemma RemadeIndexed(e: Rt, ifs: seq<If>)
    requires e.host && e.hash == e.dst
    ensures Indexed(Remade(e), ifs)
  {
    var t := Remade(e);
    BucketRange(e.hash);
    hide Bucket;
    assert t.hosts[1..] == [];
    forall b | 0 <= b < RTHASHSIZ
      ensures t.yhrthost[b] == Chain(t.hosts, t.rt, b) && t.yhrtnet[b] == Chain(t.nets, t.rt, b)
    {
      assert Chain([1], t.rt, b) == if Bucket(e.hash) == b then [1] else [];
    }
  }

  lemma RemadeCounted(e: Rt)
    requires e.up && e.refcnt == 0
    ensures Counted(Remade(e))
  {
    hide Bucket;
    var t := Remade(e);
    OneSlot(0);
    OneSlot(1);
    assert Dead(t.rt) == {0};
  }

  /** There is such a route: slot 0 then caches the deleted entry, and a search finds the new one. */
  lemma LeakWitness(dst: bv32)
    ensures var e, ifs := Rt(dst, dst, 0, true, true, 0, 0), [If(true, true, 0, 0)];
            var t := Remade(e);
            Inv(t, ifs) && 0 in t.held && !t.rt[t.held[0]].up && Found(t, ifs, dst) == Some(1)
            && !Inv(Alloc(t, ifs, 0, dst), ifs)
  {
    var e, ifs := Rt(dst, dst, 0, true, true, 0, 0), [If(true, true, 0, 0)];
    var t := Remade(e);
    RemadeIndexed(e, ifs);
    RemadeCounted(e);
    BucketRange(dst);
    assert Found(t, ifs, dst) == Some(1) by {
      hide Bucket, NetOf, Shift;
      assert t.yhrthost[Bucket(dst)] == [1];
    }
    hide Found, Indexed, Counted;
    AllocLeaks(t, ifs, 0, dst);
  }

  lemma GivenReferenced(rt: Blocks, held: map<nat, nat>, slot: nat)
    requires Referenced(rt, held) && slot in held
    ensures var id := held[slot];
            id in rt && var n := rt[id].refcnt - 1;
            if n == 0 && !rt[id].up then Referenced(rt - {id}, held - {slot})
            else Referenced(Recount(rt, id, n), held - {slot})
  {
    var id := held[slot];
    SlotsTake(held, slot);
    if rt[id].refcnt - 1 == 0 && !rt[id].up {
      NoSlots(held - {slot}, id);
    }
    hide Slots;
  }

  lemma FreedIndexed(t: Table, ifs: seq<If>, id: nat, held: map<nat, nat>)
    requires Inv(t, ifs) && id in t.rt && !t.rt[id].up
    ensures var u := t.(rt := t.rt - {id}, held := held, trash := t.trash - 1);
            Indexed(u, ifs) && UpIsLinked(u.rt, u.hosts, u.nets) && |Dead(u.rt)| == |Dead(t.rt)| - 1
  {
    var u := t.(rt := t.rt - {id}, held := held, trash := t.trash - 1);
    IndexedSame(t, u, ifs);
    hide Indexed, NetOf, Shift, Referenced;
    assert Dead(u.rt) == Dead(t.rt) - {id};
  }

  /** So does freeing, which is what gives trash back. */
  lemma FreeInv(t: Table, ifs: seq<If>, slot: nat)
    requires Inv(t, ifs) && slot in t.held
    ensures Inv(Free(t, slot), ifs)
  {
    hide Indexed, Referenced, UpIsLinked, Dead;
    var id := t.held[slot];
    GivenReferenced(t.rt, t.held, slot);
    RecountFacts(t, ifs, id, t.rt[id].refcnt - 1, t.held - {slot});
    if t.rt[id].refcnt == 1 && !t.rt[id].up {
      FreedIndexed(t, ifs, id, t.held - {slot});
    }
  }

  /** A route, which may cache nothing, copied into a message: the message holds a reference of its own, to an
      entry that has been taken out as well. */
  function Copied(t: Table, slot: nat, msg: nat): Table {
    if slot in t.held then
      var id := t.held[slot];
      t.(rt := Recount(t.rt, id, At(t.rt, id).refcnt + 1), held := t.held[msg := id])
    else t
  }

  /** Copying keeps the books, dead or alive. */
  lemma CopyInv(t: Table, ifs: seq<If>, slot: nat, msg: nat)
    requires Inv(t, ifs) && msg !in t.held
    ensures Inv(Copied(t, slot, msg), ifs)
  {
    hide Indexed, UpIsLinked, Dead;
    if slot in t.held {
      var id := t.held[slot];
      RecountFacts(t, ifs, id, t.rt[id].refcnt + 1, t.held[msg := id]);
      TakenReferenced(t.rt, t.held, msg, id);
    }
  }

  lemma NoSlots(held: map<nat, nat>, id: nat)
    requires |Slots(held, id)| == 0
    ensures forall s :: s in held ==> held[s] != id
  {
    forall s | s in held
      ensures held[s] != id
    {
      assert s !in Slots(held, id);
    }
  }

  lemma {:induction false} LocateIn(chain: seq<nat>, rt: Blocks, ifs: seq<If>, host: bool, dst: bv32, gw: bv32,
                                    hash: bv32)
    ensures var r := Locate(chain, rt, ifs, host, dst, gw, hash);
            r.Some? ==> r.value in chain
  {
    if chain != [] {
      LocateIn(chain[1..], rt, ifs, host, dst, gw, hash);
    }
  }

  lemma {:induction false} ChainIn(ids: seq<nat>, rt: Blocks, b: nat)
    ensures forall id :: id in Chain(ids, rt, b) <==> id in ids && Bucket(At(rt, id).hash) == b
  {
    hide Bucket;
    if ids != [] {
      ChainIn(ids[1..], rt, b);
      assert ids == [ids[0]] + ids[1..];
    }
  }

  /** The buckets of the list that loses m; no other bucket has it. */
  lemma ChainsRemove(chains: seq<seq<nat>>, ids: seq<nat>, rt: Blocks, m: nat, rt': Blocks)
    requires |chains| == RTHASHSIZ && (forall b :: 0 <= b < RTHASHSIZ ==> chains[b] == Chain(ids, rt, b))
    requires SameKeys(Remove(ids, m), rt, rt')
    ensures var h := Bucket(At(rt, m).hash);
            h < RTHASHSIZ
            && forall b :: 0 <= b < RTHASHSIZ ==> chains[h := Remove(chains[h], m)][b] == Chain(Remove(ids, m), rt', b)
  {
    BucketRange(At(rt, m).hash);
    hide Bucket, Chain, Remove;
    var h := Bucket(At(rt, m).hash);
    forall b | 0 <= b < RTHASHSIZ
      ensures chains[h := Remove(chains[h], m)][b] == Chain(Remove(ids, m), rt', b)
    {
      ChainRemove(ids, rt, b, m);
      ChainSame(Remove(ids, m), rt, rt', b);
      ChainIn(ids, rt, b);
      RemoveFacts(chains[b], m);
    }
  }

  lemma KeysKept(ids: seq<nat>, keep: seq<nat>, rt: Blocks, rt': Blocks, m: nat)
    requires forall i :: 0 <= i < |ids| ==> ids[i] in rt
    requires (forall id :: id in keep ==> id in ids && id != m)
            && (forall id :: id in rt && id != m ==> id in rt' && rt'[id] == rt[id])
    ensures SameKeys(keep, rt, rt')
  {
    forall i | 0 <= i < |keep|
      ensures keep[i] in rt && keep[i] != m
    {
      assert keep[i] in keep;
      assert keep[i] in ids;
    }
  }

  lemma HashedKept(ids: seq<nat>, keep: seq<nat>, rt: Blocks, rt': Blocks, ifs: seq<If>, host: bool)
    requires Hashed(ids, rt, ifs, host) && SameKeys(keep, rt, rt') && forall id :: id in keep ==> id in ids
    ensures Hashed(keep, rt', ifs, host)
  {
    hide NetOf, Shift;
    forall i | 0 <= i < |keep|
      ensures keep[i] in rt' && rt'[keep[i]].host == host && rt'[keep[i]].hash == HashOf(ifs, rt'[keep[i]])
    {
      assert keep[i] in ids;
    }
  }

  /** A list and its buckets. */
  ghost predicate ListIndexed(chains: seq<seq<nat>>, ids: seq<nat>, rt: Blocks, ifs: seq<If>, host: bool) {
    |chains| == RTHASHSIZ && (forall b :: 0 <= b < RTHASHSIZ ==> chains[b] == Chain(ids, rt, b))
    && Hashed(ids, rt, ifs, host) && NoTwice(ids)
  }

  lemma IndexedLists(t: Table, ifs: seq<If>)
    ensures Indexed(t, ifs)
            <==> ListIndexed(t.yhrthost, t.hosts, t.rt, ifs, true) && ListIndexed(t.yhrtnet, t.nets, t.rt, ifs, false)
  {
    hide Chain, Hashed, NoTwice;
  }

  lemma RetiredKeeps(rt: Blocks, m: nat)
    ensures forall id :: id in rt && id != m ==> id in Retired(rt, m) && Retired(rt, m)[id] == rt[id]
  {
  }

  /** The list that m is on, and its bucket, without m. */
  lemma ListRemoved(chains: seq<seq<nat>>, ids: seq<nat>, rt: Blocks, ifs: seq<If>, host: bool, m: nat)
    requires ListIndexed(chains, ids, rt, ifs, host) && m in rt
    ensures var h := Bucket(rt[m].hash);
            h < RTHASHSIZ && ListIndexed(chains[h := Remove(chains[h], m)], Remove(ids, m), Retired(rt, m), ifs, host)
  {
    hide Bucket, Chain, Remove, HashOf, Retired;
    var rt' := Retired(rt, m);
    RetiredKeeps(rt, m);
    RemoveFacts(ids, m);
    KeysKept(ids, Remove(ids, m), rt, rt', m);
    HashedKept(ids, Remove(ids, m), rt, rt', ifs, host);
    ChainsRemove(chains, ids, rt, m, rt');
  }

  /** The other list. */
  lemma ListStays(chains: seq<seq<nat>>, ids: seq<nat>, rt: Blocks, ifs: seq<If>, host: bool, m: nat)
    requires ListIndexed(chains, ids, rt, ifs, host) && m in rt && m !in ids
    ensures ListIndexed(chains, ids, Retired(rt, m), ifs, host)
  {
    hide Bucket, Chain, HashOf, Retired;
    var rt' := Retired(rt, m);
    RetiredKeeps(rt, m);
    KeysKept(ids, ids, rt, rt', m);
    HashedKept(ids, ids, rt, rt', ifs, host);
    forall b | 0 <= b < RTHASHSIZ
      ensures chains[b] == Chain(ids, rt', b)
    {
      ChainSame(ids, rt, rt', b);
    }
  }

  /** The lists when m goes, whichever list it is on. */
  lemma UnlinkIndexed(t: Table, ifs: seq<If>, m: nat, host: bool)
    requires Indexed(t, ifs) && m in t.rt && t.rt[m].host == host && m in (if host then t.hosts else t.nets)
    ensures Bucket(t.rt[m].hash) < RTHASHSIZ && Indexed(Unlink(t, host, Bucket(t.rt[m].hash), m), ifs)
  {
    OtherList(t, ifs, m, host);
    hide Indexed, ListIndexed, Bucket, Remove, Retired;
    BucketRange(t.rt[m].hash);
    Sizes(t, ifs);
    IndexedLists(t, ifs);
    if host {
      ListRemoved(t.yhrthost, t.hosts, t.rt, ifs, true, m);
      ListStays(t.yhrtnet, t.nets, t.rt, ifs, false, m);
    } else {
      ListRemoved(t.yhrtnet, t.nets, t.rt, ifs, false, m);
      ListStays(t.yhrthost, t.hosts, t.rt, ifs, true, m);
    }
    IndexedLists(Unlink(t, host, Bucket(t.rt[m].hash), m), ifs);
  }

  lemma OtherList(t: Table, ifs: seq<If>, m: nat, host: bool)
    requires Indexed(t, ifs) && m in t.rt && t.rt[m].host == host
    ensures m !in (if host then t.nets else t.hosts)
  {
  }

  lemma RetiredDead(rt: Blocks, m: nat)
    requires m in rt && rt[m].up
    ensures |Dead(Retired(rt, m))| == |Dead(rt)| + (if rt[m].refcnt > 0 then 1 else 0)
    ensures forall id :: id in Retired(rt, m) ==> id in rt && (id != m ==> Retired(rt, m)[id] == rt[id])
    ensures forall id :: id in rt && id != m ==> id in Retired(rt, m)
    ensures m in Retired(rt, m) ==> rt[m].refcnt > 0 && Retired(rt, m)[m] == rt[m].(up := false)
    ensures m !in Retired(rt, m) ==> rt[m].refcnt <= 0
  {
    if rt[m].refcnt > 0 {
      assert Dead(Retired(rt, m)) == Dead(rt) + {m};
    } else {
      assert Dead(Retired(rt, m)) == Dead(rt);
    }
  }

  lemma RetiredReferenced(rt: Blocks, held: map<nat, nat>, m: nat)
    requires Referenced(rt, held) && m in rt && rt[m].up
    ensures Referenced(Retired(rt, m), held)
  {
    RetiredDead(rt, m);
    if rt[m].refcnt <= 0 {
      NoSlots(held, m);
    }
    hide Slots, Retired, Dead;
  }

  lemma RetiredLinked(rt: Blocks, hosts: seq<nat>, nets: seq<nat>, m: nat, host: bool)
    requires UpIsLinked(rt, hosts, nets) && m in rt && rt[m].up && m !in (if host then nets else hosts)
    ensures UpIsLinked(Retired(rt, m), if host then Remove(hosts, m) else hosts, if host then nets else Remove(nets, m))
  {
    RetiredDead(rt, m);
    RemoveFacts(hosts, m);
    RemoveFacts(nets, m);
    hide Retired, Dead, Remove;
  }

  lemma UnlinkCounted(t: Table, ifs: seq<If>, b: nat, m: nat, host: bool)
    requires Inv(t, ifs) && m in t.rt && t.rt[m].host == host && m in (if host then t.hosts else t.nets)
            && b < RTHASHSIZ
    ensures Counted(Unlink(t, host, b, m))
  {
    OtherList(t, ifs, m, host);
    assert t.rt[m].up;
    RetiredDead(t.rt, m);
    RetiredReferenced(t.rt, t.held, m);
    RetiredLinked(t.rt, t.hosts, t.nets, m, host);
    hide Referenced, UpIsLinked, Remove, Indexed, Retired, Dead;
  }

  /** Deleting an entry keeps the books: freed if nobody holds it, counted as trash if somebody does. */
  lemma UnlinkInv(t: Table, ifs: seq<If>, m: nat, host: bool)
    requires Inv(t, ifs) && m in t.rt && t.rt[m].host == host && m in (if host then t.hosts else t.nets)
    ensures Bucket(t.rt[m].hash) < RTHASHSIZ && Inv(Unlink(t, host, Bucket(t.rt[m].hash), m), ifs)
  {
    hide Indexed, Counted, Bucket;
    BucketRange(t.rt[m].hash);
    UnlinkIndexed(t, ifs, m, host);
    UnlinkCounted(t, ifs, Bucket(t.rt[m].hash), m, host);
  }

  lemma ChainsAdd(chains: seq<seq<nat>>, ids: seq<nat>, rt: Blocks, id: nat, e: Rt)
    requires |chains| == RTHASHSIZ && (forall b :: 0 <= b < RTHASHSIZ ==> chains[b] == Chain(ids, rt, b))
    requires id !in rt && (forall i :: 0 <= i < |ids| ==> ids[i] in rt)
    ensures var more := Pushed(chains, Bucket(e.hash), id);
            Bucket(e.hash) < RTHASHSIZ
            && (forall b :: 0 <= b < RTHASHSIZ ==> more[b] == Chain([id] + ids, rt[id := e], b))
            && (forall b :: 0 <= b < RTHASHSIZ ==> chains[b] == Chain(ids, rt[id := e], b))
  {
    BucketRange(e.hash);
    hide Bucket;
    forall b | 0 <= b < RTHASHSIZ
      ensures Pushed(chains, Bucket(e.hash), id)[b] == Chain([id] + ids, rt[id := e], b)
      ensures chains[b] == Chain(ids, rt[id := e], b)
    {
      ChainSame(ids, rt, rt[id := e], b);
      assert ([id] + ids)[1..] == ids;
      assert [] + Chain(ids, rt, b) == Chain(ids, rt, b);
    }
  }

  lemma LinkIndexed(t: Table, ifs: seq<If>, id: nat, e: Rt)
    requires Indexed(t, ifs) && id !in t.rt && e.hash == HashOf(ifs, e)
    ensures Bucket(e.hash) < RTHASHSIZ && Indexed(Link(t, Bucket(e.hash), id, e), ifs)
  {
    hide Bucket, Chain, Pushed, HashOf;
    ChainsAdd(t.yhrthost, t.hosts, t.rt, id, e);
    ChainsAdd(t.yhrtnet, t.nets, t.rt, id, e);
    HashedAdd(t.hosts, t.rt, ifs, true, id, e);
    HashedAdd(t.nets, t.rt, ifs, false, id, e);
    hide Hashed;
  }

  lemma HashedAdd(ids: seq<nat>, rt: Blocks, ifs: seq<If>, host: bool, id: nat, e: Rt)
    requires Hashed(ids, rt, ifs, host) && id !in rt && e.hash == HashOf(ifs, e) && NoTwice(ids)
    ensures Hashed(ids, rt[id := e], ifs, host) && (e.host == host ==> Hashed([id] + ids, rt[id := e], ifs, host))
    ensures NoTwice([id] + ids)
  {
    hide HashOf;
  }

  lemma AddedReferenced(rt: Blocks, held: map<nat, nat>, id: nat, e: Rt)
    requires Referenced(rt, held) && id !in rt && e.up && e.refcnt == 0
    ensures Referenced(rt[id := e], held) && Dead(rt[id := e]) == Dead(rt)
  {
    assert Slots(held, id) == {};
  }

  lemma LinkCounted(t: Table, ifs: seq<If>, b: nat, id: nat, e: Rt)
    requires Inv(t, ifs) && id !in t.rt && e.up && e.refcnt == 0 && b < RTHASHSIZ
    ensures Counted(Link(t, b, id, e))
  {
    AddedReferenced(t.rt, t.held, id, e);
    hide Chain, Referenced, Dead, Indexed;
  }

  /** A new entry, which nobody holds, keeps the books. */
  lemma LinkInv(t: Table, ifs: seq<If>, id: nat, e: Rt)
    requires Inv(t, ifs) && id !in t.rt && e.hash == HashOf(ifs, e) && e.up && e.refcnt == 0
    ensures Bucket(e.hash) < RTHASHSIZ && Inv(Link(t, Bucket(e.hash), id, e), ifs)
  {
    hide Indexed, Counted, Bucket;
    LinkIndexed(t, ifs, id, e);
    LinkCounted(t, ifs, Bucket(e.hash), id, e);
  }

  // ----- over all histories

  ghost predicate AllocStep(t: Table, u: Table, ifs: seq<If>) {
    |t.yhrthost| == RTHASHSIZ && |t.yhrtnet| == RTHASHSIZ
    && exists slot, dst :: (slot in t.held ==> At(t.rt, t.held[slot]).up) && u == Alloc(t, ifs, slot, dst)
  }

  ghost predicate FreeStep(t: Table, u: Table) {
    exists slot :: slot in t.held && u == Free(t, slot)
  }

  ghost predicate CopyStep(t: Table, u: Table) {
    exists slot, msg :: msg !in t.held && u == Copied(t, slot, msg)
  }

  ghost predicate AddStep(t: Table, u: Table, ifs: seq<If>) {
    exists id, e: Rt :: id !in t.rt && e.hash == HashOf(ifs, e) && e.up && e.refcnt == 0
                        && !Known(if e.host then t.hosts else t.nets, t.rt, ifs, e.host, e.dst, e.gw)
                        && Bucket(e.hash) < |t.yhrthost| && Bucket(e.hash) < |t.yhrtnet|
                        && u == Link(t, Bucket(e.hash), id, e)
  }

  ghost predicate DeleteStep(t: Table, u: Table) {
    exists m :: Linked(t, m) && m in t.rt
                && Bucket(t.rt[m].hash) < |t.yhrthost| && Bucket(t.rt[m].hash) < |t.yhrtnet|
                && u == Unlink(t, t.rt[m].host, Bucket(t.rt[m].hash), m)
  }

  /** What may happen to the table: a client's route looked up, copied into a message or given back, an entry made
      or deleted. */
  ghost predicate Step(t: Table, u: Table, ifs: seq<If>) {
    AllocStep(t, u, ifs) || CopyStep(t, u) || FreeStep(t, u) || AddStep(t, u, ifs) || DeleteStep(t, u)
  }

  lemma LinkedWhere(t: Table, ifs: seq<If>, m: nat)
    requires Indexed(t, ifs) && Linked(t, m) && m in t.rt
    ensures m in (if t.rt[m].host then t.hosts else t.nets)
  {
  }

  /** Every step keeps the index and the books. */
  lemma StepInv(t: Table, u: Table, ifs: seq<If>)
    requires Inv(t, ifs) && Step(t, u, ifs)
    ensures Inv(u, ifs)
  {
    hide Known, Alloc, Copied, Free, Link, Unlink, Bucket, Counted, Indexed, HashOf;
    if AllocStep(t, u, ifs) {
      var slot, dst :| (slot in t.held ==> At(t.rt, t.held[slot]).up) && u == Alloc(t, ifs, slot, dst);
      AllocInv(t, ifs, slot, dst);
    } else if CopyStep(t, u) {
      var slot, msg :| msg !in t.held && u == Copied(t, slot, msg);
      CopyInv(t, ifs, slot, msg);
    } else if FreeStep(t, u) {
      var slot :| slot in t.held && u == Free(t, slot);
      FreeInv(t, ifs, slot);
    } else if AddStep(t, u, ifs) {
      var id, e: Rt :| id !in t.rt && e.hash == HashOf(ifs, e) && e.up && e.refcnt == 0
                       && !Known(if e.host then t.hosts else t.nets, t.rt, ifs, e.host, e.dst, e.gw)
                       && Bucket(e.hash) < |t.yhrthost| && Bucket(e.hash) < |t.yhrtnet|
                       && u == Link(t, Bucket(e.hash), id, e);
      LinkInv(t, ifs, id, e);
    } else {
      var m :| Linked(t, m) && m in t.rt
               && Bucket(t.rt[m].hash) < |t.yhrthost| && Bucket(t.rt[m].hash) < |t.yhrtnet|
               && u == Unlink(t, t.rt[m].host, Bucket(t.rt[m].hash), m);
      LinkedWhere(t, ifs, m);
      UnlinkInv(t, ifs, m, t.rt[m].host);
    }
  }

  function Empty(): Table {
    Table(seq(RTHASHSIZ, i => []), seq(RTHASHSIZ, i => []), map[], 0, [], [], map[])
  }

  lemma EmptyInv(ifs: seq<If>)
    ensures Inv(Empty(), ifs)
  {
    assert Dead(map[]) == {};
  }

  /** In every history over a fixed set of interfaces: the hashed search agrees with a search through all the
      entries, a count is the number of references held, nothing held has been freed, and `yhrttrash` is the
      number of entries that are held but in no bucket. */
  lemma {:induction false} Always(h: seq<Table>, ifs: seq<If>, i: nat, dst: bv32)
    requires h != [] && h[0] == Empty() && (forall k :: 0 <= k < |h| - 1 ==> Step(h[k], h[k + 1], ifs)) && i < |h|
    ensures var t := h[i];
            Inv(t, ifs) && Found(t, ifs, dst) == Linear(t.hosts, t.nets, t.rt, ifs, dst)
            && (forall id :: id in t.rt ==> t.rt[id].refcnt == |Slots(t.held, id)|)
            && (forall s :: s in t.held ==> t.held[s] in t.rt)
            && t.trash == |set id | id in t.rt && !Linked(t, id)|
    decreases i
  {
    AlwaysInv(h, ifs, i);
    HashedIsLinear(h[i], ifs, dst);
    assert Dead(h[i].rt) == set id | id in h[i].rt && !Linked(h[i], id);
  }

  lemma {:induction false} AlwaysInv(h: seq<Table>, ifs: seq<If>, i: nat)
    requires h != [] && h[0] == Empty() && (forall k :: 0 <= k < |h| - 1 ==> Step(h[k], h[k + 1], ifs)) && i < |h|
    ensures Inv(h[i], ifs)
    decreases i
  {
    hide Inv, Step;
    if i == 0 {
      EmptyInv(ifs);
    } else {
      AlwaysInv(h, ifs, i - 1);
      assert Step(h[i - 1], h[i - 1 + 1], ifs);
      StepInv(h[i - 1], h[i], ifs);
    }
  }

  // ----- the table in place

  datatype Error = Ok | ESRCH | EEXIST | ENETUNREACH

  class RouteTable {
    var yhrthost: seq<seq<nat>>
    var yhrtnet: seq<seq<nat>>
    var rt: Blocks
    var yhrttrash: int
    ghost var hosts: seq<nat>
    ghost var nets: seq<nat>
    var held: map<nat, nat>

    ghost function Abs(): Table
      reads this
    {
      Table(yhrthost, yhrtnet, rt, yhrttrash, hosts, nets, held)
    }

    constructor ()
      ensures Abs() == Empty()
    {
      yhrthost, yhrtnet := seq(RTHASHSIZ, i => []), seq(RTHASHSIZ, i => []);
      rt, yhrttrash, hosts, nets, held := map[], 0, [], [], map[];
    }

    /** One bucket gone through for a usable entry. */
    method Walk(chain: seq<nat>, ifs: seq<If>, w: Want, hash: bv32) returns (r: Option<nat>)
      ensures r == Search(chain, rt, ifs, w, hash)
    {
      hide NetOf, Usable;
      var i := 0;
      assert chain[0..] == chain;
      while i < |chain|
        invariant 0 <= i <= |chain| && Search(chain[i..], rt, ifs, w, hash) == Search(chain, rt, ifs, w, hash)
      {
        var e := At(rt, chain[i]);
        assert chain[i..][1..] == chain[i + 1..];
        if e.hash == hash && Usable(ifs, e) && Hit(ifs, e, w) {
          return Some(chain[i]);
        }
        i := i + 1;
      }
      r := None;
    }

    /** `again:` for a host, for its network, and for the default. */
    method Find(ifs: seq<If>, dst: bv32) returns (r: Option<nat>)
      requires |yhrthost| == RTHASHSIZ && |yhrtnet| == RTHASHSIZ
      ensures r == Found(Abs(), ifs, dst)
    {
      BucketRange(dst);
      BucketRange(NetHash(ifs, dst));
      BucketRange(0);
      hide Search, NetOf, Shift, Bucket;
      r := Walk(yhrthost[Bucket(dst)], ifs, Host(dst), dst);
      if r == None {
        r := Walk(yhrtnet[Bucket(NetHash(ifs, dst))], ifs, Net(NetOf(ifs, dst)), NetHash(ifs, dst));
        if r == None && dst != 0 {
          r := Walk(yhrtnet[Bucket(0)], ifs, Net(NetOf(ifs, 0)), 0);
        }
      }
    }

    /** `yhrtalloc` for the route that `slot` caches; not found is RT_FAIL. */
    method Rtalloc(ifs: seq<If>, slot: nat, dst: bv32) returns (ok: bool)
      requires Inv(Abs(), ifs)
      modifies this
      ensures Abs() == Alloc(old(Abs()), ifs, slot, dst)
      ensures ok <==> (slot in old(held) && At(old(rt), old(held)[slot]).up) || Found(old(Abs()), ifs, dst).Some?
    {
      hide Found, Inv;
      InvSizes(Abs(), ifs);
      if slot in held && At(rt, held[slot]).up {
        return true;
      }
      var r := Find(ifs, dst);
      if r == None {
        return false;
      }
      held := held[slot := r.value];
      rt := rt[r.value := At(rt, r.value).(refcnt := At(rt, r.value).refcnt + 1)];
      ok := true;
    }

    /** A client's route copied into a message. */
    method Copy(slot: nat, msg: nat)
      requires msg !in held
      modifies this
      ensures Abs() == Copied(old(Abs()), slot, msg)
    {
      if slot in held {
        var id := held[slot];
        held := held[msg := id];
        rt := rt[id := At(rt, id).(refcnt := At(rt, id).refcnt + 1)];
      }
    }

    /** `yhrtfree` of what `slot` caches. */
    method Rtfree(slot: nat)
      requires slot in held
      modifies this
      ensures Abs() == Free(old(Abs()), slot)
    {
      var id := held[slot];
      var e := At(rt, id).(refcnt := At(rt, id).refcnt - 1);
      held := held - {slot};
      if e.refcnt == 0 && !e.up {
        yhrttrash := yhrttrash - 1;
        rt := rt - {id};
      } else {
        rt := rt[id := e];
      }
    }

    /** The entry that a request is about, looked for in its bucket. */
    method Seek(chain: seq<nat>, ifs: seq<If>, host: bool, dst: bv32, gw: bv32, hash: bv32)
      returns (r: Option<nat>, j: nat)
      ensures r == Locate(chain, rt, ifs, host, dst, gw, hash)
      ensures r.Some? ==> j < |chain| && chain[j] == r.value && r.value !in chain[..j]
    {
      hide About;
      j := 0;
      assert chain[0..] == chain;
      while j < |chain|
        invariant j <= |chain|
        invariant Locate(chain[j..], rt, ifs, host, dst, gw, hash) == Locate(chain, rt, ifs, host, dst, gw, hash)
        invariant forall k :: 0 <= k < j ==>
                    !(At(rt, chain[k]).hash == hash && About(ifs, At(rt, chain[k]), host, dst, gw))
      {
        assert chain[j..][1..] == chain[j + 1..];
        if At(rt, chain[j]).hash == hash && About(ifs, At(rt, chain[j]), host, dst, gw) {
          return Some(chain[j]), j;
        }
        j := j + 1;
      }
      r := None;
    }

    /** `yhrtrequest` with SIOCDELRT. */
    method Delete(ifs: seq<If>, host: bool, dst: bv32, gw: bv32) returns (err: Error)
      requires Inv(Abs(), ifs)
      modifies this
      ensures var t := old(Abs());
              var hash := if host then dst else NetHash(ifs, dst);
              Bucket(hash) < RTHASHSIZ && |t.yhrthost| == RTHASHSIZ && |t.yhrtnet| == RTHASHSIZ
              && var r := Locate(if host then t.yhrthost[Bucket(hash)] else t.yhrtnet[Bucket(hash)], t.rt, ifs, host,
                                 dst, gw, hash);
                 if r.None? then err == ESRCH && Abs() == t
                 else err == Ok && Abs() == Unlink(t, host, Bucket(hash), r.value) && DeleteStep(t, Abs())
    {
      ghost var t := Abs();
      var hash := if host then dst else NetHash(ifs, dst);
      BucketRange(hash);
      Sizes(t, ifs);
      var b := Bucket(hash);
      var chain := if host then yhrthost[b] else yhrtnet[b];
      var r, j := Seek(chain, ifs, host, dst, gw, hash);
      if r == None {
        return ESRCH;
      }
      var m := r.value;
      DeleteFacts(t, ifs, host, b, m, hash, dst, gw);
      hide Indexed, Counted, Bucket, Remove, Locate, NetOf, Shift, Unlink;
      TakeOut(host, b, j);
      err := Ok;
    }

    /** `*mprev = m->b_cont`, and the entry freed or left to those who hold it. */
    method TakeOut(host: bool, b: nat, j: nat)
      requires b < |yhrthost| && b < |yhrtnet|
      requires var chain := if host then yhrthost[b] else yhrtnet[b]; j < |chain| && NoTwice(chain)
      modifies this
      ensures Abs() == Unlink(old(Abs()), host, b, (if host then old(yhrthost)[b] else old(yhrtnet)[b])[j])
    {
      ghost var t := Abs();
      var chain := if host then yhrthost[b] else yhrtnet[b];
      var m := chain[j];
      RemoveAt(chain, j);
      hide Remove;
      if host {
        yhrthost := yhrthost[b := chain[..j] + chain[j + 1..]];
        hosts := Remove(hosts, m);
      } else {
        yhrtnet := yhrtnet[b := chain[..j] + chain[j + 1..]];
        nets := Remove(nets, m);
      }
      if At(rt, m).refcnt > 0 {
        rt := rt[m := At(rt, m).(up := false)];
        yhrttrash := yhrttrash + 1;
      } else {
        rt := rt - {m};
      }
      assert Abs() == Unlink(t, host, b, m);
    }

    /** `yhrtrequest` with SIOCADDRT; `prov` is the interface chosen for the gateway, `id` the block allocated. */
    method AddRoute(ifs: seq<If>, host: bool, dst: bv32, gw: bv32, prov: Option<nat>, id: nat) returns (err: Error)
      requires Inv(Abs(), ifs) && id !in rt
      modifies this
      ensures var t := old(Abs());
              var hash := if host then dst else NetHash(ifs, dst);
              Bucket(hash) < RTHASHSIZ && |t.yhrthost| == RTHASHSIZ && |t.yhrtnet| == RTHASHSIZ
              && var r := Locate(if host then t.yhrthost[Bucket(hash)] else t.yhrtnet[Bucket(hash)], t.rt, ifs, host,
                                 dst, gw, hash);
                 if r.Some? then err == EEXIST && Abs() == t
                 else if prov.None? then err == ENETUNREACH && Abs() == t
                 else err == Ok && AddStep(t, Abs(), ifs)
                      && Abs() == Link(t, Bucket(hash), id, Rt(hash, dst, gw, host, true, 0, prov.value))
    {
      ghost var t := Abs();
      var hash := if host then dst else NetHash(ifs, dst);
      BucketRange(hash);
      AddFacts(t, ifs, host, dst, gw);
      hide Inv, Indexed, Counted, Bucket, Locate, NetOf, Shift, Known;
      var b := Bucket(hash);
      var r, j := Seek(if host then yhrthost[b] else yhrtnet[b], ifs, host, dst, gw, hash);
      if r != None {
        return EEXIST;
      }
      if prov == None {
        return ENETUNREACH;
      }
      var e := Rt(hash, dst, gw, host, true, 0, prov.value);
      hide Link;
      PutIn(b, id, e);
      err := Ok;
    }

    /** `m->b_cont = *mfirst; *mfirst = m` */
    method PutIn(b: nat, id: nat, e: Rt)
      requires b < |yhrthost| && b < |yhrtnet|
      modifies this
      ensures Abs() == Link(old(Abs()), b, id, e)
    {
      rt := rt[id := e];
      if e.host {
        yhrthost := yhrthost[b := [id] + yhrthost[b]];
        hosts := [id] + hosts;
      } else {
        yhrtnet := yhrtnet[b := [id] + yhrtnet[b]];
        nets := [id] + nets;
      }
    }
  }

  /** Taking one element out by relinking removes it, where it stands once. */
  lemma {:induction false} RemoveAt(ids: seq<nat>, j: nat)
    requires j < |ids| && NoTwice(ids)
    ensures Remove(ids, ids[j]) == ids[..j] + ids[j + 1..]
    decreases |ids|
  {
    if j == 0 {
      RemoveFacts(ids[1..], ids[0]);
      assert ids[0] !in ids[1..];
      assert [] + ids[1..] == ids[1..] == ids[..0] + ids[1..];
    } else {
      RemoveAt(ids[1..], j - 1);
      assert ids[1..][..j - 1] == ids[1..j] && ids[1..][j..] == ids[j + 1..];
      assert [ids[0]] + (ids[1..j] + ids[j + 1..]) == ids[..j] + ids[j + 1..];
    }
  }

  lemma {:induction false} ChainNoTwice(ids: seq<nat>, rt: Blocks, b: nat)
    requires NoTwice(ids)
    ensures NoTwice(Chain(ids, rt, b))
  {
    hide Bucket;
    if ids != [] {
      ChainNoTwice(ids[1..], rt, b);
      ChainIn(ids[1..], rt, b);
      assert ids[0] !in ids[1..];
    }
  }

  lemma {:induction false} LocateIs(chain: seq<nat>, rt: Blocks, ifs: seq<If>, host: bool, dst: bv32, gw: bv32,
                                    hash: bv32)
    ensures var r := Locate(chain, rt, ifs, host, dst, gw, hash);
            r.Some? ==> r.value in chain && At(rt, r.value).hash == hash
  {
    hide About;
    if chain != [] {
      LocateIs(chain[1..], rt, ifs, host, dst, gw, hash);
    }
  }

  lemma AddFacts(t: Table, ifs: seq<If>, host: bool, dst: bv32, gw: bv32)
    requires Inv(t, ifs)
    ensures |t.yhrthost| == RTHASHSIZ && |t.yhrtnet| == RTHASHSIZ && Bucket(RequestHash(ifs, host, dst)) < RTHASHSIZ
    ensures var h := RequestHash(ifs, host, dst);
            Locate(if host then t.yhrthost[Bucket(h)] else t.yhrtnet[Bucket(h)], t.rt, ifs, host, dst, gw, h).None?
            ==> !Known(if host then t.hosts else t.nets, t.rt, ifs, host, dst, gw)
  {
    hide NetOf, Shift, Known, Locate, Chain, Bucket, Hashed, NoTwice, Counted;
    BucketRange(RequestHash(ifs, host, dst));
    LocateEnough(if host then t.hosts else t.nets, t.rt, ifs, host, dst, gw);
  }

  lemma DeleteFacts(t: Table, ifs: seq<If>, host: bool, b: nat, m: nat, hash: bv32, dst: bv32, gw: bv32)
    requires Inv(t, ifs) && b == Bucket(hash) < RTHASHSIZ
    requires Locate(if host then t.yhrthost[b] else t.yhrtnet[b], t.rt, ifs, host, dst, gw, hash) == Some(m)
    ensures Linked(t, m) && m in t.rt && t.rt[m].host == host && t.rt[m].hash == hash
    ensures NoTwice(if host then t.yhrthost[b] else t.yhrtnet[b])
  {
    LocateIs(if host then t.yhrthost[b] else t.yhrtnet[b], t.rt, ifs, host, dst, gw, hash);
    ChainIn(t.hosts, t.rt, b);
    ChainIn(t.nets, t.rt, b);
    ChainNoTwice(t.hosts, t.rt, b);
    ChainNoTwice(t.nets, t.rt, b);
    hide Chain, NetOf, Shift, Bucket, Counted;
  }
}
