/** The multi-volume packer of i386at/sysinst/cpout.c. */
module Cpout {
  const CRITSIZE := 512
  const TRAILERLEN := 87

  /** A file named on the input: the line that names it, and the room it takes with its header. */
  datatype File = File(line: nat, name: string, size: nat, isdir: bool)

  /** `newline` says whether the last line of the input ends in one.  `cur` is the file in hand; once the input has
      ended it is a stale copy of the last, or, without that newline, the last itself. */
  datatype State = State(unread: seq<File>, cur: File, eof: bool, queue: seq<File>, remains: int,
                         vols: seq<seq<File>>, toobig: seq<File>, newline: bool)

  // ----- what one turn of the loop does

  function Cap(target: int): int {
    target - TRAILERLEN
  }

  /** `nextfloppy` */
  function NewVol(s: State, target: int): State {
    s.(remains := Cap(target), vols := s.vols + [[]])
  }

  /** `nextfile`; at the end of the input the file in hand stays what it was.  Reading a last line that has no
      newline sets `feof` at once. */
  function Read(s: State): State {
    if s.unread == [] then s.(eof := true)
    else s.(unread := s.unread[1..], cur := s.unread[0], eof := !s.newline && |s.unread| == 1)
  }

  function AddTo(vols: seq<seq<File>>, f: File): seq<seq<File>> {
    if vols == [] then [[f]] else vols[..|vols| - 1] + [vols[|vols| - 1] + [f]]
  }

  function Put(s: State, f: File): State {
    s.(remains := s.remains - f.size, vols := AddTo(s.vols, f))
  }

  predicate Finished(s: State) {
    s.eof && s.queue == []
  }

  /** At the end of the input the head of the queue gets a new volume if it needs one. */
  function Made(s: State, target: int): State {
    if s.eof && s.queue != [] && s.queue[0].size > s.remains then NewVol(s, target) else s
  }

  function Placed(s: State, target: int): State {
    if s.queue != [] && s.queue[0].size <= s.remains then Put(s.(queue := s.queue[1..]), s.queue[0])
    else if s.cur.size <= s.remains then Read(Put(s, s.cur))
    else if s.cur.isdir || s.remains < CRITSIZE then NewVol(s, target)
    else if s.cur.size > target then Read(s.(toobig := s.toobig + [s.cur]))
    else Read(s.(queue := s.queue + [s.cur]))
  }

  function Turn(s: State, target: int): State {
    if Finished(s) then s else Placed(Made(s, target), target)
  }

  function Turns(s: State, target: int, n: nat): State
    decreases n
  {
    if n == 0 then s else Turns(Turn(s, target), target, n - 1)
  }

  function Start(all: seq<File>, any: File, target: int, newline: bool): State {
    Read(NewVol(State(all, any, false, [], 0, [], [], newline), target))
  }

  /** The files that the loop gets to deal with: all but a last one without a newline. */
  function Met(all: seq<File>, newline: bool): seq<File> {
    if newline || all == [] then all else all[..|all| - 1]
  }

  /** Once a first call of `nextfile` finds the input empty, the loop has nothing to do. */
  function Pending(s: State): seq<File> {
    if s.eof then [] else [s.cur] + Met(s.unread, s.newline)
  }

  // ----- when it ends

  /** A file that the loop gets rid of: it fits a fresh volume, or is found too big for the media. */
  predicate Good(f: File, target: int) {
    f.size <= Cap(target) || (!f.isdir && f.size > target && Cap(target) >= CRITSIZE)
  }

  ghost predicate AllGood(fs: seq<File>, target: int) {
    forall i :: 0 <= i < |fs| ==> Good(fs[i], target)
  }

  ghost predicate Ends(s: State, target: int) {
    exists n: nat :: Finished(Turns(s, target, n))
  }

  /** A bad file is still in hand, unread or queued. */
  ghost predicate HasBad(s: State, target: int) {
    s.remains <= Cap(target)
    && exists f :: (f in Pending(s) || f in s.queue) && !Good(f, target)
  }

  lemma BadRead(s: State, f: File, target: int)
    requires f in Pending(s) && f != s.cur && !Good(f, target) && s.remains <= Cap(target)
    ensures HasBad(Read(s), target)
  {
    ReadPending(s);
    assert f in Pending(Read(s));
  }

  lemma BadReadQueue(s: State, f: File, target: int)
    requires f in s.queue && !Good(f, target) && s.remains <= Cap(target)
    ensures HasBad(Read(s), target)
  {
    assert f in Read(s).queue;
  }

  /** A bad file goes nowhere: it is never put on a volume, and never found too big. */
  lemma BadStays(s: State, target: int)
    requires HasBad(s, target) && !Finished(s)
    ensures HasBad(Turn(s, target), target) && !Finished(Turn(s, target))
  {
    var m := Made(s, target);
    var f :| (f in Pending(s) || f in s.queue) && !Good(f, target);
    assert Pending(m) == Pending(s) && m.queue == s.queue && m.remains <= Cap(target);
    BadPlaced(m, f, target);
  }

  lemma BadPlaced(s: State, f: File, target: int)
    requires s.remains <= Cap(target) && !Good(f, target) && (f in Pending(s) || f in s.queue)
    ensures HasBad(Placed(s, target), target) && !Finished(Placed(s, target))
  {
    var p := Placed(s, target);
    if s.queue != [] && s.queue[0].size <= s.remains {
      assert f in s.queue ==> f in s.queue[1..];
      assert f in Pending(p) || f in p.queue;
    } else if s.cur.size <= s.remains {
      var t := Put(s, s.cur);
      if f in s.queue {
        BadReadQueue(t, f, target);
      } else {
        BadRead(t, f, target);
      }
    } else if s.cur.isdir || s.remains < CRITSIZE {
      assert f in Pending(p) || f in p.queue;
    } else if s.cur.size > target {
      var t := s.(toobig := s.toobig + [s.cur]);
      if f in s.queue {
        BadReadQueue(t, f, target);
      } else {
        BadRead(t, f, target);
      }
    } else {
      var t := s.(queue := s.queue + [s.cur]);
      if f in s.queue || f == s.cur {
        assert f in t.queue;
        BadReadQueue(t, f, target);
      } else {
        BadRead(t, f, target);
      }
    }
    BadUnfinished(p, target);
  }

  lemma BadUnfinished(s: State, target: int)
    requires HasBad(s, target)
    ensures !Finished(s)
  {
  }

  lemma {:induction false} NeverEnds(s: State, target: int, n: nat)
    requires HasBad(s, target)
    ensures !Finished(Turns(s, target, n))
    decreases n
  {
    BadUnfinished(s, target);
    if n > 0 {
      BadStays(s, target);
      NeverEnds(Turn(s, target), target, n - 1);
    }
  }

  /** What has to be done yet; a volume just begun counts for less. */
  function Measure(s: State): nat {
    2 * |Pending(s)| + |s.queue|
  }

  /** All is well so far: what is queued fits a fresh volume and holds no directory. */
  ghost predicate Sane(s: State, target: int) {
    AllGood(Pending(s), target) && s.remains <= Cap(target)
    && forall i :: 0 <= i < |s.queue| ==> s.queue[i].size <= Cap(target) && !s.queue[i].isdir
  }

  lemma ReadPending(s: State)
    requires !s.eof
    ensures Pending(s) == [s.cur] + Pending(Read(s))
  {
    if s.unread != [] {
      assert s.unread == [s.unread[0]] + s.unread[1..];
      if !s.newline && |s.unread| > 1 {
        assert Met(s.unread, false) == [s.unread[0]] + Met(s.unread[1..], false);
      }
    }
  }

  lemma ReadSame(s: State, t: State)
    requires t.eof == s.eof && t.cur == s.cur && t.unread == s.unread && t.newline == s.newline
    ensures Pending(t) == Pending(s) && Pending(Read(t)) == Pending(Read(s))
    ensures Read(t) == t.(unread := Read(s).unread, cur := Read(s).cur, eof := Read(s).eof)
  {
  }

  lemma GoodRest(s: State, target: int)
    requires !s.eof && AllGood(Pending(s), target)
    ensures Good(s.cur, target) && AllGood(Pending(Read(s)), target) && |Pending(s)| == |Pending(Read(s))| + 1
  {
    ReadPending(s);
    hide Good, Pending, Read;
    var p := Pending(Read(s));
    assert forall i :: 0 <= i < |p| ==> p[i] == ([s.cur] + p)[i + 1];
    assert ([s.cur] + p)[0] == s.cur;
  }

  /** A turn gets something done, or begins a volume; and it begins one only when the last is not fresh. */
  lemma TurnProgress(s: State, target: int)
    requires Sane(s, target) && !Finished(s)
    ensures var t := Turn(s, target);
            Sane(t, target)
            && (Measure(t) < Measure(s)
                || (Measure(t) == Measure(s) && s.remains < Cap(target) && t.remains == Cap(target)))
  {
    hide Pending, Read, AllGood;
    var m := Made(s, target);
    ReadSame(s, m);
    if m.queue != [] && m.queue[0].size <= m.remains {
      ReadSame(s, Turn(s, target));
    } else {
      GoodRest(s, target);
      ReadSame(s, NewVol(s, target));
      ReadSame(s, Put(s, s.cur));
      ReadSame(s, s.(toobig := s.toobig + [s.cur]));
      ReadSame(s, s.(queue := s.queue + [s.cur]));
    }
  }

  lemma {:induction false} DoesEnd(s: State, target: int) returns (n: nat)
    requires Sane(s, target)
    ensures Finished(Turns(s, target, n))
    decreases Measure(s), if s.remains < Cap(target) then 1 else 0
  {
    if Finished(s) {
      n := 0;
    } else {
      TurnProgress(s, target);
      n := DoesEnd(Turn(s, target), target);
      n := n + 1;
    }
  }

  lemma StartPending(all: seq<File>, any: File, target: int, newline: bool)
    ensures Pending(Start(all, any, target, newline)) == Met(all, newline)
  {
    if all != [] {
      assert all == [all[0]] + all[1..];
    }
  }

  /** The packer ends exactly when every file fits a fresh volume, or is no directory, is larger than the
      target size, and volumes are of some size at all. */
  lemma EndsWhen(all: seq<File>, any: File, target: int, newline: bool)
    ensures Ends(Start(all, any, target, newline), target) <==> AllGood(Met(all, newline), target)
  {
    var s, met := Start(all, any, target, newline), Met(all, newline);
    StartPending(all, any, target, newline);
    if AllGood(met, target) {
      var n := DoesEnd(s, target);
    } else {
      var i :| 0 <= i < |met| && !Good(met[i], target);
      assert met[i] in Pending(s);
      forall n: nat
        ensures !Finished(Turns(s, target, n))
      {
        NeverEnds(s, target, n);
      }
    }
  }

  // ----- what it leaves

  /** All that has been put on volumes, in order. */
  function Out(vols: seq<seq<File>>): seq<File> {
    if vols == [] then [] else Out(vols[..|vols| - 1]) + vols[|vols| - 1]
  }

  function Total(v: seq<File>): nat {
    if v == [] then 0 else Total(v[..|v| - 1]) + v[|v| - 1].size
  }

  lemma OutNew(vols: seq<seq<File>>)
    ensures Out(vols + [[]]) == Out(vols)
  {
    assert (vols + [[]])[..|vols|] == vols;
    assert Out(vols) + [] == Out(vols);
  }

  lemma OutPut(vols: seq<seq<File>>, f: File)
    requires vols != []
    ensures Out(AddTo(vols, f)) == Out(vols) + [f]
  {
    var k := |vols| - 1;
    var x, v := Out(vols[..k]), vols[k];
    assert AddTo(vols, f)[..k] == vols[..k] && AddTo(vols, f)[k] == v + [f];
    assert x + (v + [f]) == x + v + [f];
  }

  lemma TotalMore(v: seq<File>, f: File)
    ensures Total([]) == 0 && Total(v + [f]) == Total(v) + f.size
  {
    assert (v + [f])[..|v|] == v;
  }

  /** Every file is in one place: on a volume, found too big, queued, or yet to come. */
  function Books(s: State): multiset<File> {
    multiset(Out(s.vols)) + multiset(s.toobig) + multiset(s.queue) + multiset(Pending(s))
  }

  /** No volume holds more than there is room for, and `remains` is what is left on the last. */
  ghost predicate Roomy(s: State, target: int) {
    s.vols != [] && Total(s.vols[|s.vols| - 1]) == Cap(target) - s.remains
    && (forall i :: 0 <= i < |s.vols| ==> s.vols[i] == [] || Total(s.vols[i]) <= Cap(target))
    && (forall i :: 0 <= i < |s.toobig| ==> s.toobig[i].size > target)
    && (forall i :: 0 <= i < |Out(s.vols)| ==> Out(s.vols)[i].size <= Cap(target))
  }

  ghost predicate Numbered(fs: seq<File>, from: nat) {
    forall i :: 0 <= i < |fs| ==> fs[i].line == from + i
  }

  ghost predicate Before(fs: seq<File>, line: nat) {
    forall i :: 0 <= i < |fs| ==> fs[i].line < line
  }

  /** Whatever has gone out before a directory comes before it on the input. */
  ghost predicate DirsFirst(out: seq<File>) {
    forall p, q :: 0 <= p < q < |out| && out[q].isdir ==> out[p].line < out[q].line
  }

  ghost predicate InOrder(s: State, at: nat) {
    s.vols != [] && Numbered(Pending(s), at) && DirsFirst(Out(s.vols))
    && Before(Out(s.vols), at) && Before(s.queue, at)
    && forall i :: 0 <= i < |s.queue| ==> !s.queue[i].isdir
  }

  lemma BooksNewVol(s: State, target: int)
    ensures Books(NewVol(s, target)) == Books(s)
  {
    hide Out;
    OutNew(s.vols);
  }

  lemma BooksDequeue(s: State)
    requires s.vols != [] && s.queue != []
    ensures Books(Put(s.(queue := s.queue[1..]), s.queue[0])) == Books(s)
  {
    hide Out;
    OutPut(s.vols, s.queue[0]);
    assert s.queue == [s.queue[0]] + s.queue[1..];
  }

  lemma BooksRead(s: State, t: State)
    requires !s.eof && t.eof == s.eof && t.cur == s.cur && t.unread == s.unread
    requires t.newline == s.newline
    requires multiset(Out(t.vols)) + multiset(t.toobig) + multiset(t.queue)
          == multiset(Out(s.vols)) + multiset(s.toobig) + multiset(s.queue) + multiset{s.cur}
    ensures Books(Read(t)) == Books(s)
  {
    hide Out, Pending, Read;
    ReadPending(s);
    ReadSame(s, t);
  }

  lemma BooksInline(s: State)
    requires !s.eof && s.vols != []
    ensures Books(Read(Put(s, s.cur))) == Books(s)
  {
    hide Out;
    OutPut(s.vols, s.cur);
    BooksRead(s, Put(s, s.cur));
  }

  lemma BooksAside(s: State)
    requires !s.eof
    ensures Books(Read(s.(toobig := s.toobig + [s.cur]))) == Books(s)
    ensures Books(Read(s.(queue := s.queue + [s.cur]))) == Books(s)
  {
    hide Out;
    BooksRead(s, s.(toobig := s.toobig + [s.cur]));
    BooksRead(s, s.(queue := s.queue + [s.cur]));
  }

  /** At the end of the input there is always a queued file that fits. */
  lemma SaneMade(s: State, target: int)
    requires Sane(s, target) && !Finished(s)
    ensures var m := Made(s, target);
            m.eof ==> m.queue != [] && m.queue[0].size <= m.remains
  {
  }

  lemma VolsStay(s: State, f: File, target: int)
    ensures Put(s, f).vols != [] && NewVol(s, target).vols != [] && Read(s).vols == s.vols
  {
  }

  lemma PlacedConserves(s: State, target: int)
    requires s.vols != [] && (s.eof ==> s.queue != [] && s.queue[0].size <= s.remains)
    ensures Books(Placed(s, target)) == Books(s) && Placed(s, target).vols != []
  {
    hide Books, Out, Put, Read, NewVol;
    VolsStay(s, s.cur, target);
    if s.queue != [] && s.queue[0].size <= s.remains {
      BooksDequeue(s);
      VolsStay(s.(queue := s.queue[1..]), s.queue[0], target);
    } else if s.cur.size <= s.remains {
      BooksInline(s);
      VolsStay(Put(s, s.cur), s.cur, target);
    } else if s.cur.isdir || s.remains < CRITSIZE {
      BooksNewVol(s, target);
    } else {
      BooksAside(s);
      VolsStay(s.(toobig := s.toobig + [s.cur]), s.cur, target);
      VolsStay(s.(queue := s.queue + [s.cur]), s.cur, target);
    }
  }

  /** A turn loses no file and makes none up. */
  lemma TurnConserves(s: State, target: int)
    requires Sane(s, target) && !Finished(s) && s.vols != []
    ensures Books(Turn(s, target)) == Books(s) && Turn(s, target).vols != []
  {
    SaneMade(s, target);
    BooksNewVol(s, target);
    VolsStay(s, s.cur, target);
    hide Books, Placed, Sane, NewVol;
    PlacedConserves(Made(s, target), target);
  }

  lemma NewVolRoomy(s: State, target: int)
    requires Roomy(s, target)
    ensures Roomy(NewVol(s, target), target)
  {
    hide Out, Total;
    OutNew(s.vols);
    TotalMore([], s.cur);
  }

  lemma PutRoomy(s: State, f: File, target: int)
    requires Roomy(s, target) && f.size <= s.remains
    ensures Roomy(Put(s, f), target)
  {
    hide Out, Total;
    OutPut(s.vols, f);
    TotalMore(s.vols[|s.vols| - 1], f);
  }

  lemma ReadRoomy(s: State, target: int)
    requires Roomy(s, target)
    ensures Roomy(Read(s), target)
  {
  }

  lemma TurnRoomy(s: State, target: int)
    requires Roomy(s, target)
    ensures Roomy(Turn(s, target), target)
  {
    if !Finished(s) {
      NewVolRoomy(s, target);
      var m := Made(s, target);
      assert Roomy(m, target);
      hide Roomy, Made;
      NewVolRoomy(m, target);
      if m.queue != [] && m.queue[0].size <= m.remains {
        SameVols(m, m.(queue := m.queue[1..]), target);
        PutRoomy(m.(queue := m.queue[1..]), m.queue[0], target);
      } else if m.cur.size <= m.remains {
        PutRoomy(m, m.cur, target);
        ReadRoomy(Put(m, m.cur), target);
      } else if m.cur.isdir || m.remains < CRITSIZE {
      } else if m.cur.size > target {
        TooBigRoomy(m, target);
        ReadRoomy(m.(toobig := m.toobig + [m.cur]), target);
      } else {
        SameVols(m, m.(queue := m.queue + [m.cur]), target);
        ReadRoomy(m.(queue := m.queue + [m.cur]), target);
      }
    }
  }

  lemma SameVols(s: State, t: State, target: int)
    requires Roomy(s, target) && t.vols == s.vols && t.toobig == s.toobig && t.remains == s.remains
    ensures Roomy(t, target)
  {
  }

  lemma TooBigRoomy(s: State, target: int)
    requires Roomy(s, target) && s.cur.size > target
    ensures Roomy(s.(toobig := s.toobig + [s.cur]), target)
  {
  }

  lemma DirsMore(out: seq<File>, f: File)
    requires DirsFirst(out) && (f.isdir ==> Before(out, f.line))
    ensures DirsFirst(out + [f])
  {
  }

  lemma ReadInOrder(s: State, t: State, at: nat)
    requires !s.eof && Numbered(Pending(s), at) && t.eof == s.eof && t.cur == s.cur && t.unread == s.unread
    requires t.newline == s.newline
    requires t.vols != [] && DirsFirst(Out(t.vols)) && Before(Out(t.vols), at + 1) && Before(t.queue, at + 1)
    requires forall i :: 0 <= i < |t.queue| ==> !t.queue[i].isdir
    ensures InOrder(Read(t), at + 1)
  {
    hide Out, DirsFirst, Pending, Read;
    ReadPending(s);
    NumberedNext(Pending(Read(s)), s.cur, at);
    ReadSame(s, t);
  }

  lemma NewVolInOrder(s: State, at: nat, target: int)
    requires InOrder(s, at)
    ensures InOrder(NewVol(s, target), at)
  {
    hide Out, DirsFirst;
    OutNew(s.vols);
  }

  lemma DequeueInOrder(s: State, at: nat)
    requires InOrder(s, at) && s.queue != []
    ensures InOrder(Put(s.(queue := s.queue[1..]), s.queue[0]), at)
  {
    hide Out, DirsFirst;
    OutPut(s.vols, s.queue[0]);
    DirsMore(Out(s.vols), s.queue[0]);
  }

  lemma InlineInOrder(s: State, at: nat)
    requires InOrder(s, at) && !s.eof
    ensures InOrder(Read(Put(s, s.cur)), at + 1)
  {
    hide Out, DirsFirst;
    assert Pending(s)[0] == s.cur;
    OutPut(s.vols, s.cur);
    DirsMore(Out(s.vols), s.cur);
    ReadInOrder(s, Put(s, s.cur), at);
  }

  lemma AsideInOrder(s: State, at: nat)
    requires InOrder(s, at) && !s.eof
    ensures InOrder(Read(s.(toobig := s.toobig + [s.cur])), at + 1)
    ensures !s.cur.isdir ==> InOrder(Read(s.(queue := s.queue + [s.cur])), at + 1)
  {
    hide Out, DirsFirst;
    assert Pending(s)[0] == s.cur;
    ReadInOrder(s, s.(toobig := s.toobig + [s.cur]), at);
    if !s.cur.isdir {
      ReadInOrder(s, s.(queue := s.queue + [s.cur]), at);
    }
  }

  /** A turn keeps the order; `at` is the line of the file in hand. */
  lemma TurnInOrder(s: State, at: nat, target: int)
    requires InOrder(s, at) && Sane(s, target) && !Finished(s)
    ensures InOrder(Turn(s, target), at) || InOrder(Turn(s, target), at + 1)
  {
    SaneMade(s, target);
    NewVolInOrder(s, at, target);
    var m := Made(s, target);
    hide InOrder, Made;
    if m.queue != [] && m.queue[0].size <= m.remains {
      DequeueInOrder(m, at);
    } else if m.cur.size <= m.remains {
      InlineInOrder(m, at);
    } else if m.cur.isdir || m.remains < CRITSIZE {
      NewVolInOrder(m, at, target);
    } else {
      AsideInOrder(m, at);
    }
  }

  lemma NumberedNext(fs: seq<File>, f: File, at: nat)
    requires Numbered([f] + fs, at)
    ensures Numbered(fs, at + 1)
  {
    forall i | 0 <= i < |fs|
      ensures fs[i].line == at + 1 + i
    {
      assert ([f] + fs)[i + 1] == fs[i];
    }
  }

  // ----- the whole

  ghost predicate Inv(s: State, all: seq<File>, target: int) {
    Sane(s, target) && s.vols != [] && Books(s) == multiset(all) && Roomy(s, target)
    && exists at :: InOrder(s, at)
  }

  lemma TurnInv(s: State, all: seq<File>, target: int)
    requires Inv(s, all, target)
    ensures Inv(Turn(s, target), all, target)
  {
    hide Books, Roomy, InOrder, Sane, Placed, Made;
    if !Finished(s) {
      var at :| InOrder(s, at);
      TurnProgress(s, target);
      TurnConserves(s, target);
      TurnRoomy(s, target);
      TurnInOrder(s, at, target);
    }
  }

  lemma {:induction false} TurnsInv(s: State, all: seq<File>, target: int, n: nat)
    requires Inv(s, all, target)
    ensures Inv(Turns(s, target, n), all, target)
    decreases n
  {
    hide Inv;
    if n > 0 {
      TurnInv(s, all, target);
      TurnsInv(Turn(s, target), all, target, n - 1);
    }
  }

  lemma StartInv(all: seq<File>, any: File, target: int, newline: bool)
    requires AllGood(Met(all, newline), target) && Numbered(Met(all, newline), 0)
    ensures Inv(Start(all, any, target, newline), Met(all, newline), target)
  {
    StartFields(all, any, target, newline);
    StartPending(all, any, target, newline);
    hide Met, Pending, Start, Out, Total, AllGood, Numbered;
    var s, met := Start(all, any, target, newline), Met(all, newline);
    OutNew([]);
    TotalMore([], any);
    OutNone();
    assert multiset(Out(s.vols)) + multiset(s.toobig) + multiset(s.queue) + multiset(met) == multiset(met);
    assert InOrder(s, 0);
  }

  lemma OutNone()
    ensures Out([]) == []
  {
  }

  lemma StartFields(all: seq<File>, any: File, target: int, newline: bool)
    ensures var s := Start(all, any, target, newline);
            s.vols == [] + [[]] && s.queue == [] && s.toobig == [] && s.remains == Cap(target)
  {
  }

  lemma NumberedOnce(all: seq<File>, i: nat)
    requires Numbered(all, 0) && i < |all|
    ensures multiset(all)[all[i]] == 1
  {
    var x, y := all[..i], all[i + 1..];
    assert all == x + [all[i]] + y;
    assert all[i] !in x && all[i] !in y;
  }

  /** What the packer leaves when it ends: every file it has met that is not too big on exactly one volume, once,
      and the others on none; nothing but those files; no volume overfull; and each directory out before
      everything that follows it on the input. */
  lemma Packed(all: seq<File>, any: File, target: int, newline: bool, n: nat)
    requires Numbered(all, 0) && Finished(Turns(Start(all, any, target, newline), target, n))
    ensures var f, met := Turns(Start(all, any, target, newline), target, n), Met(all, newline);
            var out := Out(f.vols);
            (forall i :: 0 <= i < |met| ==>
               multiset(out)[met[i]] == (if met[i].size > target then 0 else 1)
               && (met[i] in f.toobig <==> met[i].size > target))
            && (forall x :: x in out || x in f.toobig ==> x in met)
            && (forall i :: 0 <= i < |f.vols| ==> f.vols[i] == [] || Total(f.vols[i]) <= Cap(target))
            && DirsFirst(out)
  {
    hide Turns, Start, Total, Out, DirsFirst, Met, AllGood;
    MetFiles(all, newline);
    EndsWhen(all, any, target, newline);
    StartInv(all, any, target, newline);
    var met := Met(all, newline);
    TurnsInv(Start(all, any, target, newline), met, target, n);
    var f := Turns(Start(all, any, target, newline), target, n);
    var out := Out(f.vols);
    assert multiset(out) + multiset(f.toobig) == multiset(met);
    forall i | 0 <= i < |met|
      ensures multiset(out)[met[i]] == (if met[i].size > target then 0 else 1)
              && (met[i] in f.toobig <==> met[i].size > target)
    {
      NumberedOnce(met, i);
      assert met[i] in multiset(out) <==> met[i] in out;
      assert met[i] in multiset(f.toobig) <==> met[i] in f.toobig;
    }
    forall x | x in out || x in f.toobig
      ensures x in met
    {
      assert x in multiset(out) || x in multiset(f.toobig);
      assert x in multiset(met);
    }
  }

  lemma StaleTurns(f: File, g: File)
    requires !f.isdir && !g.isdir && f.size == 1950 && g.size == 100
    ensures Turn(State([g], f, false, [], 1913, [[]], [], true), 2000) == State([], g, false, [f], 1913, [[]], [], true)
    ensures Turn(State([], g, false, [f], 1913, [[]], [], true), 2000) == State([], g, true, [f], 1813, [[g]], [], true)
    ensures Turn(State([], g, true, [f], 1813, [[g]], [], true), 2000)
         == State([], g, true, [f], 1813, [[g], [g]], [], true)
  {
    assert [g][1..] == [] && [] + [f] == [f];
    var v: seq<seq<File>>, w := [[]], [[g], []];
    assert v[..0] == [] && v[0] + [g] == [g] && AddTo(v, g) == [[g]];
    assert w[..1] == [[g]] && w[1] + [g] == [g] && AddTo(w, g) == [[g], [g]];
  }

  /** A file that a fresh volume has no room for, though it is not too big for the media, blocks the queue; at
      the end of the input the file in hand, which has gone out already, then goes out again. */
  lemma StaleAgain(f: File, g: File, any: File)
    requires !f.isdir && !g.isdir && f.size == 1950 && g.size == 100
    ensures Turns(Start([f, g], any, 2000, true), 2000, 3).vols == [[g], [g]]
  {
    var s := Start([f, g], any, 2000, true);
    assert s == State([g], f, false, [], 1913, [[]], [], true) by {
      assert [f, g][1..] == [g];
    }
    StaleTurns(f, g);
    hide Turn, Turns, Start;
    TurnsNone(s, 2000);
    TurnsMore(s, 2000, 0);
    TurnsMore(s, 2000, 1);
    TurnsMore(s, 2000, 2);
  }

  lemma MetFiles(all: seq<File>, newline: bool)
    requires Numbered(all, 0)
    ensures Numbered(Met(all, newline), 0)
    ensures !newline && all != [] ==> all[|all| - 1] !in Met(all, newline)
  {
  }

  /** An input whose last line has no newline: the loop ends exactly when it would without that line, and whenever
      it ends the last file is lost, on no volume and not found too big. */
  lemma LastLost(all: seq<File>, any: File, target: int)
    requires Numbered(all, 0) && all != []
    ensures Ends(Start(all, any, target, false), target) <==> AllGood(all[..|all| - 1], target)
    ensures forall n: nat ::
              var s := Turns(Start(all, any, target, false), target, n);
              Finished(s) ==> all[|all| - 1] !in Out(s.vols) && all[|all| - 1] !in s.toobig
  {
    EndsWhen(all, any, target, false);
    MetFiles(all, false);
    forall n: nat | Finished(Turns(Start(all, any, target, false), target, n))
      ensures var s := Turns(Start(all, any, target, false), target, n);
              all[|all| - 1] !in Out(s.vols) && all[|all| - 1] !in s.toobig
    {
      Packed(all, any, target, false, n);
    }
  }

  /** A file of 1300 goes out, one of 1500 is put off, and one of 100 is read without a newline: the queue is not
      empty then, and the last file is lost all the same. */
  lemma LostBehindQueue(a: File, b: File, f: File, any: File)
    requires !a.isdir && !b.isdir && a.size == 1300 && b.size == 1500 && f.size == 100
    ensures var s := Start([a, b, f], any, 2000, false);
            Turns(s, 2000, 2) == State([], f, true, [b], 613, [[a]], [], false)
            && Turns(s, 2000, 3) == State([], f, true, [], 413, [[a], [b]], [], false) && Finished(Turns(s, 2000, 3))
  {
    var s := Start([a, b, f], any, 2000, false);
    LostTurns(a, b, f);
    assert s == State([b, f], a, false, [], 1913, [[]], [], false) by {
      assert [a, b, f][1..] == [b, f];
    }
    hide Turn, Turns, Start;
    TurnsNone(s, 2000);
    TurnsMore(s, 2000, 0);
    TurnsMore(s, 2000, 1);
    TurnsMore(s, 2000, 2);
  }

  lemma LostTurns(a: File, b: File, f: File)
    requires !a.isdir && !b.isdir && a.size == 1300 && b.size == 1500 && f.size == 100
    ensures Turn(State([b, f], a, false, [], 1913, [[]], [], false), 2000)
         == State([f], b, false, [], 613, [[a]], [], false)
    ensures Turn(State([f], b, false, [], 613, [[a]], [], false), 2000)
         == State([], f, true, [b], 613, [[a]], [], false)
    ensures Turn(State([], f, true, [b], 613, [[a]], [], false), 2000)
         == State([], f, true, [], 413, [[a], [b]], [], false)
  {
    assert [b, f][1..] == [f] && [f][1..] == [] && [b][1..] == [] && [] + [b] == [b];
    var v: seq<seq<File>>, w := [[]], [[a], []];
    assert v[..0] == [] && v[0] + [a] == [a] && AddTo(v, a) == [[a]];
    assert w[..1] == [[a]] && w[1] + [b] == [b] && AddTo(w, b) == [[a], [b]];
  }

  class Packer {
    var unread: seq<File>
    var cur: File
    var eof: bool
    var qhead: seq<File>
    var remains: int
    var vols: seq<seq<File>>
    var toobig: seq<File>
    const targetsize: int
    const newline: bool

    ghost function Abs(): State
      reads this
    {
      State(unread, cur, eof, qhead, remains, vols, toobig, newline)
    }

    /** `main` up to the loop: a first volume, a first file. */
    constructor (all: seq<File>, any: File, target: int, ends: bool)
      ensures Abs() == Start(all, any, target, ends) && targetsize == target && newline == ends
    {
      targetsize, newline := target, ends;
      unread, cur, eof, qhead, remains, vols, toobig := all, any, false, [], 0, [], [];
      new;
      Nextfloppy();
      Nextfile();
    }

    method Nextfloppy()
      modifies `remains, `vols
      ensures Abs() == NewVol(old(Abs()), targetsize)
    {
      remains := targetsize - TRAILERLEN;
      vols := vols + [[]];
    }

    method Nextfile()
      modifies `unread, `cur, `eof
      ensures Abs() == Read(old(Abs()))
    {
      if unread == [] {
        eof := true;
      } else {
        cur, unread, eof := unread[0], unread[1..], !newline && |unread| == 1;
      }
    }

    /** The name written to the pipe of the current volume. */
    method Write(f: File)
      modifies `remains, `vols
      ensures Abs() == Put(old(Abs()), f)
    {
      if vols == [] {
        vols := [[f]];
      } else {
        vols := vols[..|vols| - 1] + [vols[|vols| - 1] + [f]];
      }
      remains := remains - f.size;
    }

    /** One turn of the loop. */
    method Loop() returns (done: bool)
      modifies this
      ensures done == Finished(old(Abs())) && Abs() == Turn(old(Abs()), targetsize)
    {
      hide AddTo;
      done := false;
      if eof {
        if qhead != [] {
          if qhead[0].size > remains {
            Nextfloppy();
          }
        } else {
          return true;
        }
      }
      assert Abs() == Made(old(Abs()), targetsize);
      TurnPlaced();
    }

    method TurnPlaced()
      modifies this
      ensures Abs() == Placed(old(Abs()), targetsize)
    {
      hide NewVol, Read, Put;
      if qhead != [] && qhead[0].size <= remains {
        var i := qhead[0];
        qhead := qhead[1..];
        Write(i);
      } else if cur.size <= remains {
        Write(cur);
        Nextfile();
      } else if cur.isdir || remains < CRITSIZE {
        Nextfloppy();
      } else if cur.size > targetsize {
        toobig := toobig + [cur];
        Nextfile();
      } else {
        qhead := qhead + [cur];
        Nextfile();
      }
    }

    /** The loop to its end, on an input on which it has one. */
    method Run(ghost all: seq<File>) returns (ghost n: nat)
      requires Inv(Abs(), all, targetsize)
      modifies this
      ensures Inv(Abs(), all, targetsize) && Finished(Abs())
      ensures Abs() == Turns(old(Abs()), targetsize, n)
    {
      hide Inv, Turn, Turns;
      ghost var s := Abs();
      n := 0;
      TurnsNone(s, targetsize);
      while true
        invariant Inv(Abs(), all, targetsize) && Abs() == Turns(s, targetsize, n)
        decreases Measure(Abs()), if remains < Cap(targetsize) then 1 else 0
      {
        ghost var t := Abs();
        assert Sane(t, targetsize) by { InvSane(t, all, targetsize); }
        if !Finished(t) {
          TurnProgress(t, targetsize);
        }
        TurnInv(t, all, targetsize);
        var done := Loop();
        if done {
          FinishedStays(t, targetsize);
          return;
        }
        TurnsMore(s, targetsize, n);
        n := n + 1;
      }
    }
  }

  lemma InvSane(s: State, all: seq<File>, target: int)
    requires Inv(s, all, target)
    ensures Sane(s, target)
  {
  }

  lemma FinishedStays(s: State, target: int)
    requires Finished(s)
    ensures Turn(s, target) == s
  {
  }

  lemma TurnsNone(s: State, target: int)
    ensures Turns(s, target, 0) == s
  {
  }

  lemma {:induction false} TurnsMore(s: State, target: int, n: nat)
    ensures Turns(s, target, n + 1) == Turn(Turns(s, target, n), target)
    decreases n
  {
    hide Turn;
    if n > 0 {
      TurnsMore(Turn(s, target), target, n - 1);
    } else {
      assert Turns(s, target, 1) == Turns(Turn(s, target), target, 0);
    }
  }
}
