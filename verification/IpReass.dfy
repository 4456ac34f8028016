/** Reassembly of IP fragments: `yhip_reass`, the queues it keeps, and their timer. */
module IpReass {
  import opened Bytes
  import opened Wrappers
  import opened TcpReass
  import opened IpFragment

  const IPFRAGTTL := 60

  /** A reassembly queue. */
  datatype Entry = Entry(key: Key, ttl: int, frags: seq<Frag>)

  // ----- what the code does

  /** The fragments lie end to end from 0, and the last of them has MF clear. */
  predicate Complete(frags: seq<Frag>) {
    var d := Drain(0, frags);
    frags != [] && d.rest == [] && !d.flag
  }

  function Joined(frags: seq<Frag>): seq<byte> {
    Flatten(Drain(0, frags).msgs)
  }

  /** The place of a datagram's queue, or the number of queues if it has none. */
  function Find(t: seq<Entry>, key: Key): (i: nat)
    ensures i <= |t| && (i < |t| ==> t[i].key == key) && forall j :: 0 <= j < i ==> t[j].key != key
  {
    if t == [] || t[0].key == key then 0 else 1 + Find(t[1..], key)
  }

  function Without(t: seq<Entry>, i: nat): seq<Entry>
    requires i < |t|
  {
    t[..i] + t[i + 1..]
  }

  /** A fragment that brings nothing is dropped before the queue is looked at again. */
  predicate Useless(frags: seq<Frag>, h: Frag) {
    var k := Overlap(frags, Split(frags, h.pos), h);
    k > 0 && k >= |h.data|
  }

  function Arrive(t: seq<Entry>, key: Key, h: Frag): (seq<Entry>, Option<seq<byte>>) {
    var i := Find(t, key);
    if i == |t| then
      if Complete([h]) then (t, Some(Joined([h]))) else ([Entry(key, IPFRAGTTL, [h])] + t, None)
    else if Useless(t[i].frags, h) then (t, None)
    else
      var q := Insert(t[i].frags, h);
      if Complete(q) then (Without(t, i), Some(Joined(q))) else (t[i := t[i].(frags := q)], None)
  }

  /** The timer: queues whose time is up go. */
  function Tick(t: seq<Entry>): seq<Entry> {
    if t == [] then []
    else if t[0].ttl == 1 then Tick(t[1..])
    else [Older(t[0])] + Tick(t[1..])
  }

  // ----- one datagram

  /** A fragment of the datagram D. */
  ghost predicate Genuine(h: Frag, D: seq<byte>) {
    h.data != [] && Agrees(h, D) && (h.flag <==> h.End() < |D|)
  }

  ghost predicate AllGenuine(hs: seq<Frag>, D: seq<byte>) {
    forall i :: 0 <= i < |hs| ==> Genuine(hs[i], D)
  }

  ghost predicate CoversAll(hs: seq<Frag>, D: seq<byte>) {
    forall p :: 0 <= p < |D| ==> Covers(hs, p)
  }

  lemma GenuineCut(h: Frag, k: nat, D: seq<byte>)
    requires Genuine(h, D) && k < |h.data|
    ensures Genuine(Cut(h, k), D)
  {
    CutFacts(h, k, D);
  }

  lemma {:induction false} TrimGenuine(end: int, q: seq<Frag>, D: seq<byte>)
    requires AllGenuine(q, D)
    ensures AllGenuine(TrimAfter(end, q), D)
    decreases |q|
  {
    hide Agrees;
    if q != [] && end > q[0].pos {
      if end - q[0].pos < |q[0].data| {
        GenuineCut(q[0], end - q[0].pos, D);
      } else {
        TrimGenuine(end, q[1..], D);
      }
    }
  }

  lemma InsertGenuine(q: seq<Frag>, h: Frag, D: seq<byte>)
    requires AllGenuine(q, D) && Genuine(h, D)
    ensures AllGenuine(Insert(q, h), D)
  {
    hide Genuine, TrimAfter;
    var i := Split(q, h.pos);
    var k := Overlap(q, i, h);
    if !(k > 0 && k >= |h.data|) {
      if k > 0 {
        GenuineCut(h, k, D);
      }
      var h' := if k > 0 then Cut(h, k) else h;
      TrimGenuine(h'.End(), q[i..], D);
    }
  }

  lemma GenuineAgree(q: seq<Frag>, D: seq<byte>)
    requires AllGenuine(q, D)
    ensures AllAgree(q, D)
  {
  }

  /** The flag of the last fragment presented is that of the position reached. */
  lemma {:induction false} DrainLast(nxt: int, q: seq<Frag>, D: seq<byte>)
    requires AllGenuine(q, D)
    ensures var d := Drain(nxt, q);
            AllGenuine(d.rest, D) && (d.msgs != [] ==> (d.flag <==> d.nxt < |D|))
                && (d.msgs == [] ==> d.rest == q && d.nxt == nxt)
    decreases |q|
  {
    hide Agrees;
    if q != [] && q[0].pos == nxt {
      DrainLast(q[0].End(), q[1..], D);
    }
  }

  lemma RestCovers(rest: seq<Frag>, D: seq<byte>, lim: int)
    requires AllGenuine(rest, D) && lim >= |D| && (forall p :: Covers(rest, p) ==> p >= lim)
    ensures rest == []
  {
    if rest != [] {
      assert Within(rest[0], rest[0].pos);
      assert Covers(rest, rest[0].pos);
    }
  }

  /** A queue of genuine fragments is complete exactly when they cover the datagram, and what it then gives
      is the datagram. */
  lemma CompleteWhenCovered(q: seq<Frag>, D: seq<byte>)
    requires Sorted(0, q) && AllGenuine(q, D) && D != []
    ensures Complete(q) <==> CoversAll(q, D)
    ensures Complete(q) ==> Joined(q) == D
  {
    hide Agrees, Drain, Sorted, Covers;
    GenuineAgree(q, D);
    DrainFacts(0, q, D);
    DrainLast(0, q, D);
    var d := Drain(0, q);
    assert D[0..|D|] == D;
    if CoversAll(q, D) {
      assert d.nxt >= |D|;
      RestCovers(d.rest, D, d.nxt);
      assert q != [] by { EmptyCovers(q); }
    }
    if Complete(q) {
      assert d.nxt == |D|;
    }
  }

  lemma EmptyCovers(q: seq<Frag>)
    ensures q == [] ==> !Covers(q, 0)
  {
  }

  // ----- all of them

  ghost predicate Distinct(t: seq<Entry>) {
    forall i, j :: 0 <= i < j < |t| ==> t[i].key != t[j].key
  }

  /** Every queue holds genuine fragments in order and without overlap, covers exactly what `seen` has for its
      datagram, and is not complete. */
  ghost predicate Kept(e: Entry, seen: seq<Frag>, D: seq<byte>) {
    Sorted(0, e.frags) && AllGenuine(e.frags, D) && AllGenuine(seen, D)
    && (forall p :: Covers(e.frags, p) <==> Covers(seen, p)) && !CoversAll(seen, D)
  }

  ghost predicate Has(t: seq<Entry>, key: Key) {
    exists j :: 0 <= j < |t| && t[j].key == key
  }

  ghost predicate Inv(t: seq<Entry>, seen: map<Key, seq<Frag>>, data: map<Key, seq<byte>>) {
    Distinct(t)
    && (forall i :: 0 <= i < |t| ==> t[i].key in seen && t[i].key in data && Kept(t[i], seen[t[i].key], data[t[i].key]))
    && (forall k :: k in seen ==> Has(t, k))
    && (forall k :: k in data ==> data[k] != [])
  }

  /** The fragments taken in for a datagram since its queue was made. */
  function Seen(seen: map<Key, seq<Frag>>, key: Key): seq<Frag> {
    if key in seen then seen[key] else []
  }

  function SeenAfter(seen: map<Key, seq<Frag>>, key: Key, h: Frag, done: bool): map<Key, seq<Frag>> {
    if done then seen - {key} else seen[key := Seen(seen, key) + [h]]
  }

  lemma SeenOne(seen: seq<Frag>, h: Frag, p: int)
    ensures Covers(seen + [h], p) <==> Covers(seen, p) || Within(h, p)
  {
    CoversAppend(seen, [h], p);
    CoversCons(h, [], p);
    assert [h] + [] == [h];
    assert !Covers([], p);
  }

  /** Taking in a fragment, on its queue: the order, the truth, and exactly its bytes added. */
  lemma QueueTakes(q: seq<Frag>, h: Frag, seen: seq<Frag>, D: seq<byte>)
    requires Sorted(0, q) && AllGenuine(q, D) && AllGenuine(seen, D) && Genuine(h, D) && D != []
    requires forall p :: Covers(q, p) <==> Covers(seen, p)
    ensures var q' := Insert(q, h);
            Sorted(0, q') && AllGenuine(q', D) && AllGenuine(seen + [h], D)
            && (forall p :: Covers(q', p) <==> Covers(seen + [h], p))
            && (Complete(q') <==> CoversAll(seen + [h], D)) && (Complete(q') ==> Joined(q') == D)
  {
    assert 0 <= h.pos && Agrees(h, D);
    hide Agrees, Insert, Covers, Complete, Joined;
    GenuineAgree(q, D);
    InsertFacts(0, q, h, D);
    InsertGenuine(q, h, D);
    forall p
      ensures Covers(Insert(q, h), p) <==> Covers(seen + [h], p)
    {
      SeenOne(seen, h, p);
    }
    CompleteWhenCovered(Insert(q, h), D);
  }

  lemma UselessInserts(q: seq<Frag>, h: Frag)
    requires Useless(q, h)
    ensures Insert(q, h) == q
  {
  }

  lemma FindHas(t: seq<Entry>, key: Key)
    ensures Find(t, key) < |t| <==> Has(t, key)
  {
    if Has(t, key) {
      var j :| 0 <= j < |t| && t[j].key == key;
      assert Find(t, key) <= j;
    }
  }

  /** A queue made. */
  lemma InvMake(t: seq<Entry>, seen: map<Key, seq<Frag>>, data: map<Key, seq<byte>>, e: Entry, s: seq<Frag>)
    requires Inv(t, seen, data) && !Has(t, e.key) && e.key in data && Kept(e, s, data[e.key])
    ensures Inv([e] + t, seen[e.key := s], data)
  {
    hide Kept;
    var u := [e] + t;
    forall i | 0 <= i < |u|
      ensures u[i].key in seen[e.key := s] && u[i].key in data && Kept(u[i], seen[e.key := s][u[i].key], data[u[i].key])
    {
      if i > 0 {
        assert u[i] == t[i - 1];
      }
    }
    forall k | k in seen[e.key := s]
      ensures Has(u, k)
    {
      if k == e.key {
        assert u[0].key == k;
      } else {
        var j :| 0 <= j < |t| && t[j].key == k;
        assert u[j + 1].key == k;
      }
    }
  }

  /** A queue changed. */
  lemma InvChange(t: seq<Entry>, seen: map<Key, seq<Frag>>, data: map<Key, seq<byte>>, i: nat, q: seq<Frag>,
                  s: seq<Frag>)
    requires Inv(t, seen, data) && i < |t| && Kept(t[i].(frags := q), s, data[t[i].key])
    ensures Inv(t[i := t[i].(frags := q)], seen[t[i].key := s], data)
  {
    hide Kept;
    var u := t[i := t[i].(frags := q)];
    forall k | k in seen[t[i].key := s]
      ensures Has(u, k)
    {
      if k == t[i].key {
        assert u[i].key == k;
      } else {
        var j :| 0 <= j < |t| && t[j].key == k;
        assert u[j].key == k;
      }
    }
  }

  /** A queue gone. */
  lemma InvDrop(t: seq<Entry>, seen: map<Key, seq<Frag>>, data: map<Key, seq<byte>>, i: nat)
    requires Inv(t, seen, data) && i < |t|
    ensures Inv(Without(t, i), seen - {t[i].key}, data)
  {
    hide Kept;
    var u, m := Without(t, i), seen - {t[i].key};
    forall j | 0 <= j < |u|
      ensures u[j].key in m && u[j].key in data && Kept(u[j], m[u[j].key], data[u[j].key])
    {
      assert u[j] == t[if j < i then j else j + 1];
    }
    forall k | k in m
      ensures Has(u, k)
    {
      var j :| 0 <= j < |t| && t[j].key == k;
      assert u[if j < i then j else j - 1].key == k;
    }
  }

  lemma NotSeen(t: seq<Entry>, seen: map<Key, seq<Frag>>, data: map<Key, seq<byte>>, key: Key)
    requires Inv(t, seen, data) && Find(t, key) == |t|
    ensures !Has(t, key) && key !in seen && Seen(seen, key) == [] && seen - {key} == seen
  {
    FindHas(t, key);
  }

  lemma EmptyQueue(h: Frag)
    ensures Insert([], h) == [h] && Sorted(0, []) && (forall p :: !Covers([], p))
  {
  }

  /** A fragment of a datagram that has no queue. */
  lemma FirstKeeps(t: seq<Entry>, seen: map<Key, seq<Frag>>, data: map<Key, seq<byte>>, key: Key, h: Frag)
    requires Inv(t, seen, data) && key in data && Genuine(h, data[key]) && Find(t, key) == |t|
    ensures var (t', r) := Arrive(t, key, h);
            (r.Some? <==> CoversAll(Seen(seen, key) + [h], data[key])) && (r.Some? ==> r.value == data[key])
            && Inv(t', SeenAfter(seen, key, h, r.Some?), data)
  {
    hide Complete, Joined, Covers, Sorted, Genuine, CoversAll;
    NotSeen(t, seen, data, key);
    EmptyQueue(h);
    QueueTakes([], h, [], data[key]);
    if !Complete([h]) {
      InvMake(t, seen, data, Entry(key, IPFRAGTTL, [h]), [] + [h]);
    }
  }

  /** A fragment of a datagram that has one. */
  lemma NextKeeps(t: seq<Entry>, seen: map<Key, seq<Frag>>, data: map<Key, seq<byte>>, key: Key, h: Frag)
    requires Inv(t, seen, data) && key in data && Genuine(h, data[key]) && Find(t, key) < |t|
    ensures var (t', r) := Arrive(t, key, h);
            (r.Some? <==> CoversAll(Seen(seen, key) + [h], data[key])) && (r.Some? ==> r.value == data[key])
            && Inv(t', SeenAfter(seen, key, h, r.Some?), data)
  {
    var i := Find(t, key);
    var e, s, D := t[i], seen[key], data[key];
    assert Kept(e, s, D);
    hide Complete, Joined, Covers, Sorted, AllGenuine, Genuine, CoversAll, Useless, Insert, Inv, Without, Kept;
    EntryTakes(e, h, s, D);
    var q := Insert(e.frags, h);
    if Useless(e.frags, h) {
      assert e.(frags := e.frags) == e && t[i := e] == t;
      InvChange(t, seen, data, i, e.frags, s + [h]);
    } else if Complete(q) {
      InvDrop(t, seen, data, i);
    } else {
      InvChange(t, seen, data, i, q, s + [h]);
    }
  }

  /** One queue, and a fragment for it. */
  lemma EntryTakes(e: Entry, h: Frag, s: seq<Frag>, D: seq<byte>)
    requires Kept(e, s, D) && Genuine(h, D) && D != []
    ensures var q := Insert(e.frags, h);
            (Complete(q) <==> CoversAll(s + [h], D)) && (Complete(q) ==> Joined(q) == D)
            && (!Complete(q) ==> Kept(e.(frags := q), s + [h], D))
            && (Useless(e.frags, h) ==> q == e.frags && !Complete(q))
  {
    hide Complete, Joined, Covers, Sorted, AllGenuine, Genuine, CoversAll, Useless, Insert;
    QueueTakes(e.frags, h, s, D);
    CompleteWhenCovered(e.frags, D);
    SameCover(e.frags, s, D);
    if Useless(e.frags, h) {
      UselessInserts(e.frags, h);
    }
  }

  lemma SameCover(q: seq<Frag>, s: seq<Frag>, D: seq<byte>)
    requires forall p :: Covers(q, p) <==> Covers(s, p)
    ensures CoversAll(q, D) <==> CoversAll(s, D)
  {
  }

  /** Taking in a genuine fragment: the datagram is given exactly when this fragment with those seen before
      covers it, it is the datagram, and the queues stay as they should. */
  lemma ArriveKeeps(t: seq<Entry>, seen: map<Key, seq<Frag>>, data: map<Key, seq<byte>>, key: Key, h: Frag)
    requires Inv(t, seen, data) && key in data && Genuine(h, data[key])
    ensures var (t', r) := Arrive(t, key, h);
            (r.Some? <==> CoversAll(Seen(seen, key) + [h], data[key])) && (r.Some? ==> r.value == data[key])
            && Inv(t', SeenAfter(seen, key, h, r.Some?), data)
  {
    hide Arrive, Inv, Genuine, CoversAll;
    if Find(t, key) == |t| {
      FirstKeeps(t, seen, data, key, h);
    } else {
      NextKeeps(t, seen, data, key, h);
    }
  }

  // ----- many frames, in any order

  /** One frame: too short, whole, or a fragment for the queues.  What is passed up, if anything. */
  function Took(t: seq<Entry>, f: Frame): (seq<Entry>, Option<seq<byte>>) {
    if !Entire(f) then (t, None)
    else if f.ip.mf || f.ip.off > 0 then Arrive(t, f.ip.key, FragOf(f))
    else (t, Some(FragOf(f).data))
  }

  /** A datagram passed up. */
  datatype Up = Up(key: Key, data: seq<byte>)

  function UpOf(key: Key, r: Option<seq<byte>>): seq<Up> {
    if r.Some? then [Up(key, r.value)] else []
  }

  /** A frame comes in, or the timer goes off. */
  datatype Event = Comes(f: Frame) | Timer

  function After(t: seq<Entry>, ev: Event): seq<Entry> {
    match ev
    case Comes(f) => Took(t, f).0
    case Timer => Tick(t)
  }

  function Gives(t: seq<Entry>, ev: Event): seq<Up> {
    if ev.Comes? then UpOf(ev.f.ip.key, Took(t, ev.f).1) else []
  }

  /** All that is passed up over a run. */
  function Ups(t: seq<Entry>, evs: seq<Event>): seq<Up>
    decreases |evs|
  {
    if evs == [] then [] else Gives(t, evs[0]) + Ups(After(t, evs[0]), evs[1..])
  }

  ghost predicate Given(ups: seq<Up>, key: Key) {
    exists i :: 0 <= i < |ups| && ups[i].key == key
  }

  /** The frame brings a fragment of its datagram, or too little to be looked at. */
  ghost predicate True(ev: Event, data: map<Key, seq<byte>>) {
    ev.Comes? && Entire(ev.f) ==> ev.f.ip.key in data && Genuine(FragOf(ev.f), data[ev.f.ip.key])
  }

  /** The fragments that come for a datagram. */
  function ForKey(evs: seq<Event>, key: Key): seq<Frag> {
    if evs == [] then [] else FragFor(evs[0], key) + ForKey(evs[1..], key)
  }

  function FragFor(ev: Event, key: Key): seq<Frag> {
    if ev.Comes? && Entire(ev.f) && ev.f.ip.key == key then [FragOf(ev.f)] else []
  }

  /** The fragments seen, after one more frame.  A datagram that comes whole leaves its queue alone. */
  function SeenTook(seen: map<Key, seq<Frag>>, f: Frame, done: bool): map<Key, seq<Frag>> {
    if !Entire(f) || !(f.ip.mf || f.ip.off > 0) then seen else SeenAfter(seen, f.ip.key, FragOf(f), done)
  }

  lemma CoversMore(x: seq<Frag>, y: seq<Frag>, D: seq<byte>)
    requires CoversAll(x, D)
    ensures CoversAll(x + y, D)
  {
    forall p | 0 <= p < |D|
      ensures Covers(x + y, p)
    {
      CoversAppend(x, y, p);
    }
  }

  lemma NotYetAll(t: seq<Entry>, seen: map<Key, seq<Frag>>, data: map<Key, seq<byte>>, key: Key)
    requires Inv(t, seen, data) && key in data
    ensures !CoversAll(Seen(seen, key), data[key])
  {
    if key in seen {
      var j :| 0 <= j < |t| && t[j].key == key;
      assert Kept(t[j], seen[key], data[key]);
    } else {
      assert !Covers([], 0);
    }
  }

  lemma WholeAlone(h: Frag, D: seq<byte>)
    requires Genuine(h, D) && h.pos == 0 && !h.flag
    ensures h.data == D && CoversAll([h], D)
  {
    assert D[0..|D|] == D;
    forall p | 0 <= p < |D|
      ensures Covers([h], p)
    {
      assert Within([h][0], p);
    }
  }

  lemma CoversLater(x: seq<Frag>, y: seq<Frag>, D: seq<byte>)
    requires CoversAll(y, D)
    ensures CoversAll(x + y, D)
  {
    forall p | 0 <= p < |D|
      ensures Covers(x + y, p)
    {
      CoversAppend(x, y, p);
    }
  }

  /** One frame taken in: something is passed up exactly when it completes the cover of its datagram, it is the
      datagram, and the queues stay as they should. */
  lemma TookKeeps(t: seq<Entry>, seen: map<Key, seq<Frag>>, data: map<Key, seq<byte>>, f: Frame)
    requires Inv(t, seen, data) && True(Comes(f), data)
    ensures var (t', r) := Took(t, f); var key := f.ip.key;
            (r.Some? ==> Entire(f))
            && (Entire(f) ==> (r.Some? <==> CoversAll(Seen(seen, key) + [FragOf(f)], data[key])))
            && (r.Some? ==> r.value == data[key]) && Inv(t', SeenTook(seen, f, r.Some?), data)
  {
    hide Inv, Genuine, CoversAll, Arrive, FragOf;
    if Entire(f) {
      if f.ip.mf || f.ip.off > 0 {
        ArriveKeeps(t, seen, data, f.ip.key, FragOf(f));
      } else {
        FragIs(f);
        WholeAlone(FragOf(f), data[f.ip.key]);
        CoversLater(Seen(seen, f.ip.key), [FragOf(f)], data[f.ip.key]);
      }
    }
  }

  lemma FragIs(f: Frame)
    ensures FragOf(f).pos == 8 * f.ip.off && FragOf(f).flag == f.ip.mf
  {
  }

  /** Whatever comes in whatever order, and whenever the timer goes off: nothing is ever passed up but the
      datagrams that were sent. */
  lemma {:induction false} NeverWrong(t: seq<Entry>, seen: map<Key, seq<Frag>>, data: map<Key, seq<byte>>,
                                      evs: seq<Event>)
    requires Inv(t, seen, data) && forall i :: 0 <= i < |evs| ==> True(evs[i], data)
    ensures forall u :: u in Ups(t, evs) ==> u.key in data && u.data == data[u.key]
    decreases |evs|
  {
    hide Inv, True, CoversAll, Took, Tick;
    if evs != [] {
      var t' := After(t, evs[0]);
      if evs[0].Comes? {
        TookKeeps(t, seen, data, evs[0].f);
        NeverWrong(t', SeenTook(seen, evs[0].f, Took(t, evs[0].f).1.Some?), data, evs[1..]);
        EntireTrue(evs[0].f, data);
      } else {
        TickKeeps(t, seen, data);
        NeverWrong(t', SeenStill(seen, t'), data, evs[1..]);
      }
    }
  }

  lemma EntireTrue(f: Frame, data: map<Key, seq<byte>>)
    requires True(Comes(f), data)
    ensures Entire(f) ==> f.ip.key in data
  {
  }

  lemma GivenSplit(x: seq<Up>, y: seq<Up>, key: Key)
    ensures Given(x + y, key) <==> Given(x, key) || Given(y, key)
  {
    if i :| 0 <= i < |x| && x[i].key == key {
      assert (x + y)[i] == x[i];
    }
    if i :| 0 <= i < |y| && y[i].key == key {
      assert (x + y)[|x| + i] == y[i];
    }
  }

  /** In whatever order, however often, and mixed with whatever other datagrams the frames of a datagram come:
      while the timer stays away it is passed up once its fragments cover it, and not before. */
  lemma {:induction false} AnyOrder(t: seq<Entry>, seen: map<Key, seq<Frag>>, data: map<Key, seq<byte>>,
                                    evs: seq<Event>, key: Key)
    requires Inv(t, seen, data) && key in data
    requires forall i :: 0 <= i < |evs| ==> evs[i].Comes? && True(evs[i], data)
    ensures Given(Ups(t, evs), key) <==> CoversAll(Seen(seen, key) + ForKey(evs, key), data[key])
    decreases |evs|
  {
    hide Inv, True, CoversAll, Took, Entire;
    var s := Seen(seen, key);
    if evs == [] {
      NotYetAll(t, seen, data, key);
      assert s + [] == s;
    } else {
      var f, rest := evs[0].f, evs[1..];
      var (t', r) := Took(t, f);
      TookKeeps(t, seen, data, f);
      var seen' := SeenTook(seen, f, r.Some?);
      AnyOrder(t', seen', data, rest, key);
      GivenSplit(UpOf(f.ip.key, r), Ups(t', rest), key);
      assert s + (FragFor(evs[0], key) + ForKey(rest, key)) == (s + FragFor(evs[0], key)) + ForKey(rest, key);
      if f.ip.key == key && r.Some? {
        assert UpOf(key, r)[0].key == key;
        CoversMore(s + [FragOf(f)], ForKey(rest, key), data[key]);
      } else {
        SeenGrows(t, seen, f, key);
      }
    }
  }

  lemma SeenGrows(t: seq<Entry>, seen: map<Key, seq<Frag>>, f: Frame, key: Key)
    requires Took(t, f).1.None? || f.ip.key != key
    ensures Seen(SeenTook(seen, f, Took(t, f).1.Some?), key) == Seen(seen, key) + FragFor(Comes(f), key)
    ensures !Given(UpOf(f.ip.key, Took(t, f).1), key)
  {
    hide Arrive, FragOf;
    assert Seen(seen, key) + [] == Seen(seen, key);
  }

  // ----- there and back

  /** What befalls the fragments under way: one goes over an interface, one is doubled, one is lost. */
  datatype Fate = Over(i: nat, maxtu: int) | Doubled(i: nat) | Lost(i: nat)

  function Befall(hs: seq<Frag>, df: bool, fate: Fate): seq<Frag> {
    if fate.i >= |hs| then hs
    else
      match fate
      case Over(i, maxtu) => hs[..i] + Sends(hs[i], df, maxtu) + hs[i + 1..]
      case Doubled(i) => hs + [hs[i]]
      case Lost(i) => hs[..i] + hs[i + 1..]
  }

  /** The fragments that arrive, when each has gone its own way over any interfaces. */
  function Arriving(hs: seq<Frag>, df: bool, fates: seq<Fate>): seq<Frag>
    decreases |fates|
  {
    if fates == [] then hs else Arriving(Befall(hs, df, fates[0]), df, fates[1..])
  }

  /** Nothing is lost, and no interface refuses a fragment. */
  predicate Spared(hs: seq<Frag>, df: bool, fate: Fate) {
    !fate.Lost? && (fate.Over? && fate.i < |hs| ==> Sends(hs[fate.i], df, fate.maxtu) != [])
  }

  predicate AllSpared(hs: seq<Frag>, df: bool, fates: seq<Fate>)
    decreases |fates|
  {
    fates != [] ==> Spared(hs, df, fates[0]) && AllSpared(Befall(hs, df, fates[0]), df, fates[1..])
  }

  ghost predicate Aligned(hs: seq<Frag>) {
    forall i :: 0 <= i < |hs| ==> hs[i].pos % 8 == 0
  }

  /** The pieces of a fragment are fragments of the same datagram: true to it, on multiples of 8, no longer
      than asked, with MF clear on none but the datagram's last; and they cover what the fragment covered. */
  lemma {:induction false} PiecesGenuine(h: Frag, len: nat, D: seq<byte>)
    requires Genuine(h, D) && h.pos % 8 == 0 && len > 0 && len % 8 == 0
    ensures var ps := Pieces(h.pos, h.data, h.flag, len);
            AllGenuine(ps, D) && Aligned(ps) && (forall i :: 0 <= i < |ps| ==> |ps[i].data| <= len)
            && forall p :: Covers(ps, p) <==> Within(h, p)
    decreases |h.data|
  {
    if |h.data| <= len {
      forall p
        ensures Covers([h], p) <==> Within(h, p)
      {
        CoversCons(h, [], p);
        assert [h] + [] == [h] && !Covers([], p);
      }
    } else {
      var x, y := Held(h.pos, h.data[..len], true), Held(h.pos + len, h.data[len..], h.flag);
      HalvesGenuine(h, len, D);
      hide Genuine, Covers, Pieces;
      PiecesNext(h.pos, h.data, h.flag, len);
      PiecesGenuine(y, len, D);
      var rest := Pieces(y.pos, y.data, y.flag, len);
      ConsGenuine(x, rest, len, D);
      hide AllGenuine, Aligned;
      forall p
        ensures Covers([x] + rest, p) <==> Within(h, p)
      {
        CoversCons(x, rest, p);
      }
    }
  }

  lemma ConsGenuine(x: Frag, rest: seq<Frag>, len: nat, D: seq<byte>)
    requires Genuine(x, D) && x.pos % 8 == 0 && |x.data| <= len
    requires AllGenuine(rest, D) && Aligned(rest) && forall i :: 0 <= i < |rest| ==> |rest[i].data| <= len
    ensures AllGenuine([x] + rest, D) && Aligned([x] + rest)
    ensures forall i :: 0 <= i < |[x] + rest| ==> |([x] + rest)[i].data| <= len
  {
    hide Genuine;
  }

  lemma HalvesGenuine(h: Frag, len: nat, D: seq<byte>)
    requires Genuine(h, D) && 0 < len < |h.data|
    ensures Genuine(Held(h.pos, h.data[..len], true), D) && Genuine(Held(h.pos + len, h.data[len..], h.flag), D)
  {
    assert D[h.pos..h.End()][..len] == D[h.pos..h.pos + len];
    assert D[h.pos..h.End()][len..] == D[h.pos + len..h.End()];
  }

  /** What an interface sends of a fragment are fragments of the same datagram, and cover the same unless it
      refuses. */
  lemma SendsGenuine(h: Frag, df: bool, maxtu: int, D: seq<byte>)
    requires Genuine(h, D) && h.pos % 8 == 0
    ensures var ps := Sends(h, df, maxtu);
            AllGenuine(ps, D) && Aligned(ps) && (forall p :: Covers(ps, p) ==> Within(h, p))
            && (ps != [] ==> forall p :: Covers(ps, p) <==> Within(h, p))
            && forall i :: 0 <= i < |ps| ==> HLEN + |ps[i].data| <= maxtu
  {
    hide Genuine, Pieces;
    if HLEN + |h.data| <= maxtu {
      forall p
        ensures Covers([h], p) <==> Within(h, p)
      {
        CoversCons(h, [], p);
        assert [h] + [] == [h] && !Covers([], p);
      }
    } else if !df && RoundDown(maxtu - HLEN) >= 8 {
      PiecesGenuine(h, RoundDown(maxtu - HLEN), D);
    }
  }

  lemma CoversApart(hs: seq<Frag>, i: nat, p: int)
    requires i < |hs|
    ensures Covers(hs, p) <==> Covers(hs[..i], p) || Within(hs[i], p) || Covers(hs[i + 1..], p)
  {
    assert hs == hs[..i] + ([hs[i]] + hs[i + 1..]);
    CoversAppend(hs[..i], [hs[i]] + hs[i + 1..], p);
    CoversCons(hs[i], hs[i + 1..], p);
  }

  lemma CoversBefall(hs: seq<Frag>, df: bool, fate: Fate, D: seq<byte>, p: int)
    requires AllGenuine(hs, D) && Aligned(hs)
    ensures Covers(Befall(hs, df, fate), p) ==> Covers(hs, p)
    ensures Spared(hs, df, fate) && Covers(hs, p) ==> Covers(Befall(hs, df, fate), p)
  {
    hide Covers, Sends;
    if fate.i < |hs| {
      var i := fate.i;
      CoversApart(hs, i, p);
      match fate
      case Over(_, maxtu) =>
        SendsGenuine(hs[i], df, maxtu, D);
        CoversAppend(hs[..i] + Sends(hs[i], df, maxtu), hs[i + 1..], p);
        CoversAppend(hs[..i], Sends(hs[i], df, maxtu), p);
      case Doubled(_) => SeenOne(hs, hs[i], p);
      case Lost(_) => CoversAppend(hs[..i], hs[i + 1..], p);
    }
  }

  lemma BefallGenuine(hs: seq<Frag>, df: bool, fate: Fate, D: seq<byte>)
    requires AllGenuine(hs, D) && Aligned(hs)
    ensures AllGenuine(Befall(hs, df, fate), D) && Aligned(Befall(hs, df, fate))
  {
    hide Genuine, Sends;
    if fate.Over? && fate.i < |hs| {
      SendsGenuine(hs[fate.i], df, fate.maxtu, D);
    }
  }

  /** Wherever its fragments go: what arrives are fragments of the datagram, and they cover it if none of it was
      lost or refused. */
  lemma {:induction false} ArrivingGenuine(hs: seq<Frag>, df: bool, fates: seq<Fate>, D: seq<byte>)
    requires AllGenuine(hs, D) && Aligned(hs)
    ensures AllGenuine(Arriving(hs, df, fates), D) && Aligned(Arriving(hs, df, fates))
    ensures AllSpared(hs, df, fates) ==> forall p :: Covers(hs, p) ==> Covers(Arriving(hs, df, fates), p)
    decreases |fates|
  {
    hide Genuine, Covers, Befall;
    if fates != [] {
      BefallGenuine(hs, df, fates[0], D);
      ArrivingGenuine(Befall(hs, df, fates[0]), df, fates[1..], D);
      forall p
        ensures Spared(hs, df, fates[0]) && Covers(hs, p) ==> Covers(Befall(hs, df, fates[0]), p)
      {
        CoversBefall(hs, df, fates[0], D, p);
      }
    }
  }

  lemma WholeGenuine(D: seq<byte>)
    requires D != []
    ensures AllGenuine([Held(0, D, false)], D) && Aligned([Held(0, D, false)])
    ensures forall p :: 0 <= p < |D| ==> Covers([Held(0, D, false)], p)
  {
    assert D[0..|D|] == D;
    forall p | 0 <= p < |D|
      ensures Covers([Held(0, D, false)], p)
    {
      assert Within([Held(0, D, false)][0], p);
    }
  }

  lemma CoversSubset(x: seq<Frag>, y: seq<Frag>, p: int)
    requires Covers(x, p) && forall h :: h in x ==> h in y
    ensures Covers(y, p)
  {
    var i :| 0 <= i < |x| && Within(x[i], p);
    assert x[i] in y;
  }

  lemma InvNone(data: map<Key, seq<byte>>)
    requires forall k :: k in data ==> data[k] != []
    ensures Inv([], map[], data)
  {
  }

  ghost predicate BringsOne(f: Frame, key: Key, df: bool, hs: seq<Frag>) {
    exists h :: h in hs && Brings(f, key, df, h)
  }

  /** Every frame brings one of the fragments that arrive. */
  ghost predicate Bring(evs: seq<Event>, key: Key, df: bool, hs: seq<Frag>) {
    forall i :: 0 <= i < |evs| ==> evs[i].Comes? && BringsOne(evs[i].f, key, df, hs)
  }

  lemma BringTrue(evs: seq<Event>, key: Key, df: bool, hs: seq<Frag>, D: seq<byte>, i: nat)
    requires Bring(evs, key, df, hs) && AllGenuine(hs, D) && i < |evs|
    ensures evs[i].Comes? && True(evs[i], map[key := D]) && Entire(evs[i].f) && evs[i].f.ip.key == key
    ensures FragOf(evs[i].f) in hs
  {
    hide Genuine, FragOf;
    assert BringsOne(evs[i].f, key, df, hs);
  }

  lemma {:induction false} BroughtIn(evs: seq<Event>, key: Key, i: nat)
    requires i < |evs| && evs[i].Comes? && Entire(evs[i].f) && evs[i].f.ip.key == key
    ensures FragOf(evs[i].f) in ForKey(evs, key)
  {
    hide FragOf, Entire;
    if i > 0 {
      BroughtIn(evs[1..], key, i - 1);
    }
  }

  /** From end to end.  A datagram is sent; its fragments are fragmented again over any interfaces, each fragment
      on a way of its own, some doubled, some lost; frames that bring what is left of them come in, in any order
      and any number of times.  Nothing but the datagram is ever passed up, and it is passed up exactly when the
      fragments that came cover it: surely so if nothing was lost or refused and every fragment came. */
  lemma RoundTrip(D: seq<byte>, key: Key, df: bool, fates: seq<Fate>, evs: seq<Event>)
    requires D != [] && Bring(evs, key, df, Arriving([Held(0, D, false)], df, fates))
    ensures forall u :: u in Ups([], evs) ==> u == Up(key, D)
    ensures Given(Ups([], evs), key) <==> CoversAll(ForKey(evs, key), D)
    ensures AllSpared([Held(0, D, false)], df, fates)
            && (forall h :: h in Arriving([Held(0, D, false)], df, fates) ==> h in ForKey(evs, key))
            ==> Given(Ups([], evs), key)
  {
    hide Genuine, Inv, Covers, Ups, Arriving, ForKey, True, AllSpared, Bring;
    var sent := [Held(0, D, false)];
    var hs := Arriving(sent, df, fates);
    WholeGenuine(D);
    ArrivingGenuine(sent, df, fates, D);
    var data: map<Key, seq<byte>> := map[key := D];
    InvNone(data);
    forall i | 0 <= i < |evs|
      ensures evs[i].Comes? && True(evs[i], data)
    {
      BringTrue(evs, key, df, hs, D, i);
    }
    NeverWrong([], map[], data, evs);
    AnyOrder([], map[], data, evs, key);
    assert [] + ForKey(evs, key) == ForKey(evs, key);
    if AllSpared(sent, df, fates) && forall h :: h in hs ==> h in ForKey(evs, key) {
      forall p | 0 <= p < |D|
        ensures Covers(ForKey(evs, key), p)
      {
        CoversSubset(hs, ForKey(evs, key), p);
      }
    }
  }

  /** 28 bytes over an MTU of 36 and then one of 33: the first fragment is cut again and the second is not. */
  lemma SecondHop(D: seq<byte>)
    requires |D| == 28
    ensures Arriving([Held(0, D, false)], false, [Over(0, 36), Over(0, 33), Over(2, 33)])
         == [Held(0, D[..8], true), Held(8, D[8..16], true), Held(16, D[16..], false)]
  {
    var x, y := Held(0, D[..16], true), Held(16, D[16..], false);
    var x1, x2 := Held(0, D[..8], true), Held(8, D[8..16], true);
    PiecesNext(0, D, false, 16);
    PiecesLast(16, D[16..], false, 16);
    assert Sends(Held(0, D, false), false, 36) == [x, y];
    assert D[..16][..8] == D[..8] && D[..16][8..] == D[8..16];
    PiecesNext(0, D[..16], true, 8);
    PiecesLast(8, D[..16][8..], true, 8);
    assert Sends(x, false, 33) == [x1, x2];
    assert Sends(y, false, 33) == [y];
    assert Befall([Held(0, D, false)], false, Over(0, 36)) == [x, y];
    assert Befall([x, y], false, Over(0, 33)) == [x1, x2, y];
    assert Befall([x1, x2, y], false, Over(2, 33)) == [x1, x2, y];
    hide Befall;
    var all := [Over(0, 36), Over(0, 33), Over(2, 33)];
    assert all[1..] == [Over(0, 33), Over(2, 33)] && all[1..][1..] == [Over(2, 33)] && all[1..][1..][1..] == [];
    assert Arriving([x1, x2, y], false, [Over(2, 33)]) == [x1, x2, y];
    assert Arriving([x, y], false, all[1..]) == [x1, x2, y];
  }

  // ----- the timer

  function SeenStill(seen: map<Key, seq<Frag>>, t: seq<Entry>): map<Key, seq<Frag>> {
    map k | k in seen && Find(t, k) < |t| :: seen[k]
  }

  function Older(e: Entry): Entry {
    e.(ttl := e.ttl - 1)
  }

  /** A queue that had more than one tick to go. */
  ghost predicate Survives(e: Entry, t: seq<Entry>) {
    exists j :: 0 <= j < |t| && t[j].ttl != 1 && e == Older(t[j])
  }

  lemma SurvivesIn(e: Entry, t: seq<Entry>)
    requires t != [] && Survives(e, t[1..])
    ensures Survives(e, t)
  {
    var j :| 0 <= j < |t[1..]| && t[1..][j].ttl != 1 && e == Older(t[1..][j]);
    assert t[j + 1] == t[1..][j];
  }

  lemma {:induction false} TickFrom(t: seq<Entry>, i: nat)
    requires i < |Tick(t)|
    ensures Survives(Tick(t)[i], t)
    decreases |t|
  {
    if t[0].ttl == 1 {
      TickFrom(t[1..], i);
      SurvivesIn(Tick(t)[i], t);
    } else if i == 0 {
      assert Tick(t)[0] == Older(t[0]);
    } else {
      TickFrom(t[1..], i - 1);
      SurvivesIn(Tick(t)[i], t);
    }
  }

  lemma SurvivesKey(e: Entry, t: seq<Entry>, key: Key)
    requires Survives(e, t) && forall j :: 0 <= j < |t| ==> t[j].key != key
    ensures e.key != key
  {
  }

  lemma {:induction false} TickDistinct(t: seq<Entry>)
    requires Distinct(t)
    ensures Distinct(Tick(t))
    decreases |t|
  {
    if t != [] {
      TickDistinct(t[1..]);
      forall i | 0 <= i < |Tick(t[1..])|
        ensures Tick(t[1..])[i].key != t[0].key
      {
        TickFrom(t[1..], i);
        SurvivesKey(Tick(t[1..])[i], t[1..], t[0].key);
      }
    }
  }

  /** A queue with more than one tick to go stays. */
  lemma {:induction false} TickStays(t: seq<Entry>, j: nat)
    requires j < |t| && t[j].ttl != 1
    ensures Older(t[j]) in Tick(t)
    decreases |t|
  {
    if j > 0 {
      TickStays(t[1..], j - 1);
    }
  }

  lemma OlderKept(e: Entry, seen: seq<Frag>, D: seq<byte>)
    requires Kept(e, seen, D)
    ensures Kept(Older(e), seen, D)
  {
  }

  /** The timer drops whole queues and harms none of the others. */
  lemma TickKeeps(t: seq<Entry>, seen: map<Key, seq<Frag>>, data: map<Key, seq<byte>>)
    requires Inv(t, seen, data)
    ensures Inv(Tick(t), SeenStill(seen, Tick(t)), data)
  {
    hide Tick, Kept, Distinct;
    TickDistinct(t);
    var u := Tick(t);
    forall i | 0 <= i < |u|
      ensures u[i].key in SeenStill(seen, u) && u[i].key in data
              && Kept(u[i], SeenStill(seen, u)[u[i].key], data[u[i].key])
    {
      TickFrom(t, i);
      var j :| 0 <= j < |t| && t[j].ttl != 1 && u[i] == Older(t[j]);
      OlderKept(t[j], seen[t[j].key], data[t[j].key]);
      assert Has(u, u[i].key);
      FindHas(u, u[i].key);
    }
    forall k | k in SeenStill(seen, u)
      ensures Has(u, k)
    {
      FindHas(u, k);
    }
  }

  // ----- the queues in place

  function DataOf(q: seq<Frag>): seq<byte> {
    if q == [] then [] else q[0].data + DataOf(q[1..])
  }

  lemma {:induction false} DataLast(q: seq<Frag>, h: Frag)
    ensures DataOf(q + [h]) == DataOf(q) + h.data
  {
    if q == [] {
      assert q + [h] == [h] && [h][1..] == [];
      assert h.data + DataOf([]) == h.data && [] + h.data == h.data;
    } else {
      DataLast(q[1..], h);
      assert (q + [h])[1..] == q[1..] + [h];
    }
  }

  lemma {:induction false} DrainAll(nxt: int, q: seq<Frag>)
    requires Drain(nxt, q).rest == []
    ensures Flatten(Drain(nxt, q).msgs) == DataOf(q)
    decreases |q|
  {
    if q != [] {
      DrainAll(q[0].End(), q[1..]);
      assert Drain(nxt, q).msgs[1..] == Drain(q[0].End(), q[1..]).msgs;
    }
  }

  lemma InsertSome(q: seq<Frag>, h: Frag)
    requires !Useless(q, h)
    ensures Insert(q, h) != []
  {
  }

  function Coming(q: seq<Frame>): seq<Event> {
    seq(|q|, i requires 0 <= i < |q| => Comes(q[i]))
  }

  lemma NextUp(t: seq<Entry>, q: seq<Frame>, ups: seq<Up>)
    requires q != []
    ensures var (t', r) := Took(t, q[0]);
            ups + Ups(t, Coming(q)) == ups + UpOf(q[0].ip.key, r) + Ups(t', Coming(q[1..]))
  {
    hide Took;
    assert Coming(q)[0] == Comes(q[0]) && Coming(q)[1..] == Coming(q[1..]);
    var (t', r) := Took(t, q[0]);
    assert ups + (UpOf(q[0].ip.key, r) + Ups(t', Coming(q[1..])))
            == ups + UpOf(q[0].ip.key, r) + Ups(t', Coming(q[1..]));
  }

  class Reassembly {
    var yhipq: seq<Entry>

    constructor ()
      ensures yhipq == []
    {
      yhipq := [];
    }

    /** The queue of a datagram, or the end. */
    method Lookup(key: Key) returns (fp: nat)
      ensures fp == Find(yhipq, key)
    {
      fp := 0;
      while fp < |yhipq| && yhipq[fp].key != key
        invariant fp <= |yhipq| && forall j :: 0 <= j < fp ==> yhipq[j].key != key
      {
        fp := fp + 1;
      }
      assert forall j :: 0 <= j < fp ==> yhipq[j].key != key;
    }

    /** While this fragment overlaps succeeding ones, trim them or dequeue them. */
    static method TrimLater(q0: seq<Frag>, i: nat, end: int) returns (q: seq<Frag>)
      requires i <= |q0|
      ensures q == q0[..i] + TrimAfter(end, q0[i..])
    {
      hide TrimAfter, Cut;
      q := q0;
      ghost var later := q0[i..];
      while i < |q| && end > q[i].pos
        invariant i <= |q| && q == q0[..i] + later && TrimAfter(end, later) == TrimAfter(end, q0[i..])
        decreases |q|
      {
        assert later == [q[i]] + q[i + 1..];
        TrimStep(end, q[i], q[i + 1..]);
        var k := end - q[i].pos;
        if k < |q[i].data| {
          ghost var front := q0[..i];
          assert front + ([Cut(q[i], k)] + q[i + 1..]) == q[i := Cut(q[i], k)];
          q := q[i := Cut(q[i], k)];
          return;
        }
        later := q[i + 1..];
        q := q[..i] + q[i + 1..];
      }
      if i < |q| {
        assert later == [q[i]] + q[i + 1..];
        TrimStep(end, q[i], q[i + 1..]);
      } else {
        assert later == [];
        TrimStep(end, Held(0, [], false), []);
      }
    }

    /** The fragment put in its place. */
    static method Place(q: seq<Frag>, h0: Frag) returns (dropped: bool, r: seq<Frag>)
      ensures dropped <==> Useless(q, h0)
      ensures !dropped ==> r == Insert(q, h0)
    {
      var i, h := 0, h0;
      while i < |q| && q[i].pos <= h.pos
        invariant i <= |q| && forall j :: 0 <= j < i ==> q[j].pos <= h.pos
      {
        i := i + 1;
      }
      SplitIs(q, h.pos, i);
      hide Split, TrimAfter;
      r := q;
      if i > 0 {
        var k := q[i - 1].End() - h.pos;
        if k > 0 {
          if k >= |h.data| {
            return true, q;
          }
          h := Cut(h, k);
        }
      }
      r := TrimLater(q, i, h.End());
      dropped, r := false, r[..i] + [h] + r[i..];
    }

    /** The check for a whole datagram. */
    static method Check(q: seq<Frag>) returns (complete: bool)
      requires q != []
      ensures complete == Complete(q)
    {
      var next, j := 0, 0;
      assert q[0..] == q;
      while j < |q|
        invariant 0 <= j <= |q| && Drain(0, q).rest == Drain(next, q[j..]).rest
        invariant Drain(0, q).flag
               == if Drain(next, q[j..]).msgs == [] then j > 0 && q[j - 1].flag else Drain(next, q[j..]).flag
      {
        assert q[j..][1..] == q[j + 1..];
        if q[j].pos != next {
          return false;
        }
        next := q[j].End();
        j := j + 1;
      }
      assert q[j..] == [];
      complete := !q[j - 1].flag;
    }

    /** The messages of all the fragments linked up. */
    static method Join(q: seq<Frag>) returns (bp: seq<byte>)
      requires Complete(q)
      ensures bp == Joined(q)
    {
      DrainAll(0, q);
      var j := 0;
      bp := [];
      assert q[..0] == [];
      while j < |q|
        invariant 0 <= j <= |q| && bp == DataOf(q[..j])
      {
        DataLast(q[..j], q[j]);
        assert q[..j + 1] == q[..j] + [q[j]];
        bp := bp + q[j].data;
        j := j + 1;
      }
      assert q[..j] == q;
    }

    /** `yhip_reass` on a fragment whose header has been taken off. */
    method Reass(key: Key, h: Frag, fp: nat) returns (r: Option<seq<byte>>)
      requires fp == Find(yhipq, key)
      modifies this
      ensures (yhipq, r) == Arrive(old(yhipq), key, h)
    {
      hide Complete, Joined, Useless, Insert;
      if fp == |yhipq| {
        yhipq := [Entry(key, IPFRAGTTL, [h])] + yhipq;
        var complete := Check([h]);
        if !complete {
          return None;
        }
        var bp := Join([h]);
        r := Some(bp);
        yhipq := yhipq[1..];
      } else {
        var dropped, q := Place(yhipq[fp].frags, h);
        if dropped {
          return None;
        }
        InsertSome(yhipq[fp].frags, h);
        var complete := Check(q);
        if complete {
          var bp := Join(q);
          r := Some(bp);
          yhipq := yhipq[..fp] + yhipq[fp + 1..];
        } else {
          yhipq := yhipq[fp := yhipq[fp].(frags := q)];
          r := None;
        }
      }
    }
 
    /** The part of `yhipintr` between the length trim and the switch to a protocol: what is passed up, if
        anything.  Nothing looks for the queue of a datagram that comes whole. */
    method Intr(f: Frame) returns (r: Option<seq<byte>>)
      requires f.body != []
      modifies this
      ensures (yhipq, r) == Took(old(yhipq), f)
    {
      hide Flatten, Arrive, FragOf;
      if f.ip.len < HLEN {
        return None;
      }
      var ok, h := Receive(f);
      if !ok {
        return None;
      }
      if f.ip.mf || f.ip.off > 0 {
        var fp := Lookup(f.ip.key);
        r := Reass(f.ip.key, h, fp);
      } else {
        r := Some(h.data);
      }
    }

    /** The loop of `yhipintr` over the frames that wait. */
    method Intrs(q: seq<Frame>) returns (ups: seq<Up>)
      requires forall i :: 0 <= i < |q| ==> q[i].body != []
      modifies this
      ensures ups == Ups(old(yhipq), Coming(q))
    {
      hide Took;
      ups := [];
      ghost var t0 := yhipq;
      var i := 0;
      assert q[0..] == q && [] + Ups(t0, Coming(q)) == Ups(t0, Coming(q));
      while i < |q|
        invariant 0 <= i <= |q| && Ups(t0, Coming(q)) == ups + Ups(yhipq, Coming(q[i..]))
      {
        ghost var t := yhipq;
        var r := Intr(q[i]);
        NextUp(t, q[i..], ups);
        assert q[i..][1..] == q[i + 1..];
        ups := ups + UpOf(q[i].ip.key, r);
        i := i + 1;
      }
      assert Coming(q[i..]) == [] && ups + [] == ups;
    }

    /** `yhip_slowtimo` */
    method Slowtimo()
      modifies this
      ensures yhipq == Tick(old(yhipq))
    {
      var i := 0;
      ghost var t, done, todo: seq<Entry> := yhipq, [], yhipq;
      hide Tick;
      while i < |yhipq|
        invariant i == |done| && yhipq == done + todo && done + Tick(todo) == Tick(t)
        decreases |todo|
      {
        ghost var rest := todo[1..];
        assert todo == [yhipq[i]] + rest;
        TickStep(yhipq[i], rest);
        var e := yhipq[i].(ttl := yhipq[i].ttl - 1);
        if e.ttl == 0 {
          yhipq := yhipq[..i] + yhipq[i + 1..];
          assert yhipq == done + rest;
        } else {
          yhipq := yhipq[i := e];
          assert yhipq == done + [e] + rest;
          assert done + ([e] + Tick(rest)) == done + [e] + Tick(rest);
          done := done + [e];
          i := i + 1;
        }
        todo := rest;
      }
      TickStep(Entry(Key(0, 0, 0, 0), 1, []), []);
      assert todo == [];
    }
  }

  lemma TickStep(e: Entry, rest: seq<Entry>)
    ensures Tick([]) == []
    ensures Tick([e] + rest) == (if e.ttl == 1 then [] else [Older(e)]) + Tick(rest)
  {
    assert ([e] + rest)[1..] == rest;
    assert [] + Tick(rest) == Tick(rest);
  }
}
