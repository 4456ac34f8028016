/** How long an incomplete datagram waits: its queue goes at the 60th tick of the timer after its first fragment. */
module IpTimer {
  import opened Wrappers
  import opened TcpReass
  import opened IpFragment
  import opened IpReass

  /** The queue of a datagram. */
  function Look(t: seq<Entry>, key: Key): Option<Entry> {
    if Find(t, key) < |t| then Some(t[Find(t, key)]) else None
  }

  lemma FindIs(t: seq<Entry>, key: Key, i: nat)
    requires i <= |t| && (i < |t| ==> t[i].key == key) && forall j :: 0 <= j < i ==> t[j].key != key
    ensures Find(t, key) == i
  {
  }

  lemma LookMore(e: Entry, t: seq<Entry>, key: Key)
    ensures Look([e] + t, key) == if e.key == key then Some(e) else Look(t, key)
  {
    assert ([e] + t)[1..] == t;
  }

  // ----- one event

  lemma UpdateLook(t: seq<Entry>, i: nat, e: Entry, key: Key)
    requires i < |t| && e.key == t[i].key != key
    ensures Look(t[i := e], key) == Look(t, key)
  {
    var u := t[i := e];
    FindIs(u, key, Find(t, key));
  }

  lemma WithoutLook(t: seq<Entry>, i: nat, key: Key)
    requires i < |t| && t[i].key != key
    ensures Look(Without(t, i), key) == Look(t, key)
  {
    var u, f := Without(t, i), Find(t, key);
    var g := if f > i then f - 1 else f;
    assert forall j :: 0 <= j < g ==> u[j] == t[if j < i then j else j + 1];
    FindIs(u, key, g);
  }

  /** A fragment of another datagram makes no difference. */
  lemma OtherArrives(t: seq<Entry>, other: Key, h: Frag, key: Key)
    requires other != key
    ensures Look(Arrive(t, other, h).0, key) == Look(t, key)
  {
    hide Complete, Insert, Useless, Joined;
    var i := Find(t, other);
    if i == |t| {
      LookMore(Entry(other, IPFRAGTTL, [h]), t, key);
    } else {
      WithoutLook(t, i, key);
      UpdateLook(t, i, t[i].(frags := Insert(t[i].frags, h)), key);
    }
  }

  /** A fragment of the same, unless it completes it, leaves the time that its queue has. */
  lemma SameArrives(t: seq<Entry>, key: Key, h: Frag)
    requires Look(t, key).Some? && Arrive(t, key, h).1.None?
    ensures var r := Look(Arrive(t, key, h).0, key); r.Some? && r.value.ttl == Look(t, key).value.ttl
  {
    hide Complete, Insert, Useless, Joined;
    var i := Find(t, key);
    if !Useless(t[i].frags, h) {
      var u := t[i := t[i].(frags := Insert(t[i].frags, h))];
      FindIs(u, key, i);
    }
  }

  /** The first fragment gives its queue 60 ticks. */
  lemma FirstArrives(t: seq<Entry>, key: Key, h: Frag)
    requires Look(t, key).None? && Arrive(t, key, h).1.None?
    ensures Look(Arrive(t, key, h).0, key) == Some(Entry(key, 60, [h]))
  {
    hide Complete, Joined;
    LookMore(Entry(key, 60, [h]), t, key);
  }

  lemma ArriveDistinct(t: seq<Entry>, key: Key, h: Frag)
    requires Distinct(t)
    ensures Distinct(Arrive(t, key, h).0)
  {
    hide Complete, Insert, Useless, Joined;
  }

  /** A tick takes one from each queue's time, and the queue with it that had but one. */
  lemma {:induction false} TickLook(t: seq<Entry>, key: Key)
    requires Distinct(t)
    ensures Look(Tick(t), key) == match Look(t, key)
                                  case None => None
                                  case Some(e) => if e.ttl == 1 then None else Some(e.(ttl := e.ttl - 1))
    decreases |t|
  {
    if t != [] {
      var e, rest := t[0], t[1..];
      assert t == [e] + rest;
      TickLook(rest, key);
      LookMore(e, rest, key);
      if e.ttl != 1 {
        LookMore(e.(ttl := e.ttl - 1), Tick(rest), key);
      } else if e.key == key {
        assert Look(rest, key) == None;
      }
    }
  }

  // ----- many events

  function Goes(t: seq<Entry>, evs: seq<Event>): seq<Entry>
    decreases |evs|
  {
    if evs == [] then t else Goes(After(t, evs[0]), evs[1..])
  }

  function Ticks(evs: seq<Event>): nat {
    if evs == [] then 0 else (if evs[0].Timer? then 1 else 0) + Ticks(evs[1..])
  }

  lemma AfterDistinct(t: seq<Entry>, ev: Event)
    requires Distinct(t)
    ensures Distinct(After(t, ev))
  {
    hide Distinct, Arrive, Tick, Entire;
    if ev.Comes? {
      ArriveDistinct(t, ev.f.ip.key, FragOf(ev.f));
    } else {
      TickDistinct(t);
    }
  }

  lemma GivesKey(t: seq<Entry>, ev: Event, key: Key)
    requires ev.Comes? && ev.f.ip.key == key
    ensures Took(t, ev.f).1.Some? ==> Given(Gives(t, ev), key)
  {
    hide Arrive;
    var r := Took(t, ev.f).1;
    if r.Some? {
      assert Gives(t, ev)[0].key == key;
    }
  }

  lemma AfterLook(t: seq<Entry>, ev: Event, key: Key)
    requires Distinct(t) && Look(t, key).Some? && !Given(Gives(t, ev), key)
    requires ev.Timer? ==> Look(t, key).value.ttl != 1
    ensures var r := Look(After(t, ev), key);
            r.Some? && r.value.ttl == Look(t, key).value.ttl - (if ev.Timer? then 1 else 0)
  {
    hide Distinct, Arrive, Tick, Entire, Given, Look;
    if ev.Timer? {
      TickLook(t, key);
    } else if ev.f.ip.key == key {
      GivesKey(t, ev, key);
      if Entire(ev.f) && (ev.f.ip.mf || ev.f.ip.off > 0) {
        SameArrives(t, key, FragOf(ev.f));
      }
    } else {
      OtherArrives(t, ev.f.ip.key, FragOf(ev.f), key);
    }
  }

  /** Whatever comes, a queue whose datagram is not passed up stays until as many ticks have passed as it had; more
      fragments of its datagram give it no more. */
  lemma {:induction false} Waits(t: seq<Entry>, evs: seq<Event>, key: Key)
    requires Distinct(t) && Look(t, key).Some? && !Given(Ups(t, evs), key) && Ticks(evs) < Look(t, key).value.ttl
    ensures Distinct(Goes(t, evs))
    ensures var r := Look(Goes(t, evs), key); r.Some? && r.value.ttl == Look(t, key).value.ttl - Ticks(evs)
    decreases |evs|
  {
    hide Distinct, After, Given, Look, Gives;
    if evs != [] {
      GivenSplit(Gives(t, evs[0]), Ups(After(t, evs[0]), evs[1..]), key);
      AfterDistinct(t, evs[0]);
      AfterLook(t, evs[0], key);
      Waits(After(t, evs[0]), evs[1..], key);
    }
  }

  /** From the first fragment of a datagram on, whatever comes, if the datagram is not passed up its queue is there
      until the timer has gone off 59 times more, and gone when it has gone off 60 times. */
  lemma Expires(t: seq<Entry>, key: Key, h: Frag, evs: seq<Event>)
    requires Distinct(t) && Look(t, key).None? && Arrive(t, key, h).1.None?
    requires !Given(Ups(Arrive(t, key, h).0, evs), key)
    ensures var u := Goes(Arrive(t, key, h).0, evs);
            (Ticks(evs) < 60 ==> Look(u, key).Some?)
            && (Ticks(evs) == 59 ==> Look(After(u, Timer), key).None?)
  {
    hide Distinct, Arrive, Given, Look, Goes, Tick, Ups;
    FirstArrives(t, key, h);
    ArriveDistinct(t, key, h);
    if Ticks(evs) < 60 {
      Waits(Arrive(t, key, h).0, evs, key);
      TickLook(Goes(Arrive(t, key, h).0, evs), key);
    }
  }
}
