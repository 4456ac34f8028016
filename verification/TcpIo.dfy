/** `yhtp_io`: the lock and the request flags of a connection, with requests posted at any moment that is not
    protected by `splstr`.  A step is what happens between two such moments. */
module TcpIo {
  import opened Bytes

  type Message = seq<byte>

  datatype Service = Timers | Output | Input

  /** The flags TF_NEEDTIMER, TF_NEEDOUT and TF_NEEDIN. */
  datatype Flags = Flags(timer: bool, out: bool, inp: bool)

  /** Where the holder of the lock is: in a service routine that has not reached its protected part yet, past
      it, or back in the loop; or there is no holder. */
  datatype Holder = Nobody | Begins(svc: Service) | Works(svc: Service) | Returns

  /** `posted` and `taken` are histories: the segments given to `yhtp_io` and those taken by `yhtp_uinput`.
      `asked` and `served` count, for each service, the requests made and those a routine has begun to serve. */
  datatype State = State(flags: Flags, lock: bool, inq: seq<Message>, holder: Holder, posted: seq<Message>,
                         taken: seq<Message>, asked: map<Service, nat>, served: map<Service, nat>)

  datatype Request = Need(svc: Service) | Segment(seg: Message)

  function Asks(r: Request): Service {
    if r.Need? then r.svc else Input
  }

  function Flag(f: Flags, s: Service): bool {
    match s
    case Timers => f.timer
    case Output => f.out
    case Input => f.inp
  }

  function With(f: Flags, s: Service, on: bool): Flags {
    match s
    case Timers => f.(timer := on)
    case Output => f.(out := on)
    case Input => f.(inp := on)
  }

  predicate None(f: Flags) {
    !f.timer && !f.out && !f.inp
  }

  /** The service that comes first. */
  function First(f: Flags): Service {
    if f.timer then Timers else if f.out then Output else Input
  }

  // ----- the steps

  function Count(m: map<Service, nat>, s: Service): nat {
    if s in m then m[s] else 0
  }

  /** The top of the loop, entered or come back to: the next service, or the lock dropped. */
  function Choose(s: State): State {
    if None(s.flags) then s.(lock := false, holder := Nobody)
    else s.(holder := Begins(First(s.flags)))
  }

  /** The request noted. */
  function Noted(s: State, r: Request): State {
    var v := Asks(r);
    var t := s.(flags := With(s.flags, v, true), asked := s.asked[v := Count(s.asked, v) + 1]);
    if r.Segment? then t.(inq := s.inq + [r.seg], posted := s.posted + [r.seg]) else t
  }

  /** `yhtp_io` called: the request is noted, and if the lock is free the caller takes it. */
  function Post(s: State, r: Request): State {
    var t := Noted(s, r);
    if t.lock then t else Choose(t.(lock := true))
  }

  /** A routine begins to serve all that has been asked of it up to now. */
  function Cleared(s: State, v: Service): State {
    s.(flags := With(s.flags, v, false), served := s.served[v := Count(s.asked, v)])
  }

  /** The protected part of a service routine. */
  function Begin(s: State, v: Service): State {
    if v == Input then
      if s.inq == [] then Cleared(s, Input).(holder := Returns)
      else s.(inq := s.inq[1..], taken := s.taken + [s.inq[0]], holder := Works(Input))
    else Cleared(s, v).(holder := Works(v))
  }

  /** The holder gets on.  `yhtp_output` may go round again; `yhtp_uinput` may call it, and goes back for more
      input; `yhtp_dotimers` may call it too. */
  predicate Move(s: State, s': State) {
    (s.holder.Begins? && s' == Begin(s, s.holder.svc))
    || (s.holder == Works(Output) && (s' == s.(holder := Begins(Output)) || s' == s.(holder := Returns)))
    || (s.holder == Works(Timers) && (s' == s.(holder := Returns) || s' == Cleared(s, Output)))
    || (s.holder == Works(Input) && (s' == s.(holder := Begins(Input)) || s' == Cleared(s, Output)))
    || (s.holder == Returns && s' == Choose(s))
  }

  /** A post, or the holder getting on. */
  ghost predicate Step(s: State, s': State) {
    (exists r :: s' == Post(s, r)) || Move(s, s')
  }

  function Idle(): State {
    State(Flags(false, false, false), false, [], Nobody, [], [], map[], map[])
  }

  ghost predicate Run(run: seq<State>) {
    run != [] && run[0] == Idle() && forall i :: 0 <= i < |run| - 1 ==> Step(run[i], run[i + 1])
  }

  // ----- what every step keeps

  /** The flag of a kind is up exactly while a request of it has not been served. */
  ghost predicate Minded(s: State, v: Service) {
    Count(s.served, v) <= Count(s.asked, v) && (Flag(s.flags, v) <==> Count(s.served, v) < Count(s.asked, v))
  }

  ghost predicate Inv(s: State) {
    (s.lock <==> s.holder != Nobody)
    && (s.holder.Nobody? ==> None(s.flags))
    && (s.inq != [] || s.holder == Begins(Input) || s.holder == Works(Input) ==> s.flags.inp)
    && s.taken + s.inq == s.posted
    && forall v :: Minded(s, v)
  }

  lemma CountUpdate(m: map<Service, nat>, v: Service, n: nat)
    ensures Count(m[v := n], v) == n && forall w :: w != v ==> Count(m[v := n], w) == Count(m, w)
  {
  }

  lemma FlagWith(f: Flags, v: Service, on: bool)
    ensures Flag(With(f, v, on), v) == on && forall w :: w != v ==> Flag(With(f, v, on), w) == Flag(f, w)
  {
  }

  lemma NotedMinds(s: State, r: Request)
    requires forall v :: Minded(s, v)
    ensures forall v :: Minded(Noted(s, r), v)
  {
    var a := Asks(r);
    CountUpdate(s.asked, a, Count(s.asked, a) + 1);
    FlagWith(s.flags, a, true);
    hide Count, Flag, With;
    forall v
      ensures Minded(Noted(s, r), v)
    {
      assert Minded(s, v);
    }
  }

  lemma ClearedMinds(s: State, a: Service)
    requires forall v :: Minded(s, v)
    ensures forall v :: Minded(Cleared(s, a), v)
  {
    CountUpdate(s.served, a, Count(s.asked, a));
    FlagWith(s.flags, a, false);
    hide Count, Flag, With;
    forall v
      ensures Minded(Cleared(s, a), v)
    {
      assert Minded(s, v);
    }
  }

  lemma MindsSame(s: State, t: State)
    requires (forall v :: Minded(s, v)) && t.flags == s.flags && t.asked == s.asked && t.served == s.served
    ensures forall v :: Minded(t, v)
  {
    forall v
      ensures Minded(t, v)
    {
      assert Minded(s, v);
    }
  }

  lemma PostInv(s: State, r: Request)
    requires Inv(s)
    ensures Inv(Post(s, r))
  {
    hide Minded;
    NotedMinds(s, r);
    var t := Noted(s, r);
    if r.Segment? {
      assert s.taken + (s.inq + [r.seg]) == s.posted + [r.seg];
    }
    MindsSame(t, Post(s, r));
  }

  lemma BeginInv(s: State)
    requires Inv(s) && s.holder.Begins?
    ensures Inv(Begin(s, s.holder.svc))
  {
    hide Minded;
    var v := s.holder.svc;
    ClearedMinds(s, v);
    if v == Input && s.inq != [] {
      assert s.inq == [s.inq[0]] + s.inq[1..];
      MindsSame(s, Begin(s, v));
    } else {
      MindsSame(Cleared(s, v), Begin(s, v));
    }
  }

  lemma MoveInv(s: State, s': State)
    requires Inv(s) && Move(s, s')
    ensures Inv(s')
  {
    hide Minded;
    if s.holder.Begins? {
      BeginInv(s);
    } else if s.holder.Works? && s' == Cleared(s, Output) {
      ClearedMinds(s, Output);
    } else {
      MindsSame(s, s');
    }
  }

  lemma StepInv(s: State, s': State)
    requires Inv(s) && Step(s, s')
    ensures Inv(s')
  {
    hide Inv, Move;
    if r :| s' == Post(s, r) {
      PostInv(s, r);
    } else {
      MoveInv(s, s');
    }
  }

  lemma {:induction false} RunInv(run: seq<State>, i: nat)
    requires Run(run) && i < |run|
    ensures Inv(run[i])
    decreases i
  {
    hide Inv, Step;
    if i == 0 {
      IdleInv();
    } else {
      RunInv(run, i - 1);
      assert Step(run[i - 1], run[i - 1 + 1]);
      StepInv(run[i - 1], run[i]);
    }
  }

  lemma IdleInv()
    ensures Inv(Idle())
  {
    forall v
      ensures Minded(Idle(), v)
    {
    }
  }

  // ----- what that means

  /** While nobody holds the lock no request waits, and every segment posted has been taken. */
  lemma NothingLost(run: seq<State>, i: nat)
    requires Run(run) && i < |run| && !run[i].lock
    ensures run[i].inq == [] && run[i].taken == run[i].posted
    ensures forall v :: Count(run[i].served, v) == Count(run[i].asked, v)
  {
    RunInv(run, i);
    var s := run[i];
    assert s.taken + [] == s.taken;
    forall v
      ensures Count(s.served, v) == Count(s.asked, v)
    {
      assert Minded(s, v);
    }
  }

  /** At any time the segments taken are the first of those posted, each once and in the order of posting. */
  lemma InOrder(run: seq<State>, i: nat)
    requires Run(run) && i < |run|
    ensures run[i].taken <= run[i].posted && run[i].posted == run[i].taken + run[i].inq
  {
    RunInv(run, i);
  }

  /** A service routine runs only for the holder of the lock, a call that finds the lock taken leaves the
      holder where it is, and the lock is dropped only with no flag up and no segment queued. */
  lemma OneHolder(run: seq<State>, i: nat)
    requires Run(run) && i + 1 < |run|
    ensures run[i].holder != Nobody ==> run[i].lock
    ensures forall r :: run[i].lock ==> Post(run[i], r).holder == run[i].holder
    ensures run[i].lock && !run[i + 1].lock ==> None(run[i].flags) && run[i].inq == [] && run[i].holder == Returns
  {
    RunInv(run, i);
    RunInv(run, i + 1);
    assert Step(run[i], run[i + 1]);
  }

  predicate NotedAs(s: State, t: State, flags: Flags, v: Service, inq: seq<Message>) {
    t.flags == flags && t.asked == s.asked[v := Count(s.asked, v) + 1] && t.inq == inq
  }

  /** Each request is noted as what it is: its own flag goes up and no other, and it is counted as its own kind;
      a segment goes to the end of the queue. */
  lemma Requested(s: State, r: Request)
    ensures var t := Post(s, r);
            match r
            case Need(Timers) => NotedAs(s, t, s.flags.(timer := true), Timers, s.inq)
            case Need(Output) => NotedAs(s, t, s.flags.(out := true), Output, s.inq)
            case Need(Input) => NotedAs(s, t, s.flags.(inp := true), Input, s.inq)
            case Segment(m) => NotedAs(s, t, s.flags.(inp := true), Input, s.inq + [m])
  {
  }

  lemma InTurn(s: State, t: State)
    requires Inv(s) && Step(s, t) && (s.holder.Nobody? || s.holder.Returns?) && t.holder.Begins?
    ensures !None(t.flags) && t.holder.svc == First(t.flags)
  {
    hide Minded;
    if r :| t == Post(s, r) {
      assert s.holder.Nobody?;
    }
  }

  /** A routine is called only while a request of its own kind has not been served; timers come before output, and
      output before input. */
  lemma CalledInTurn(run: seq<State>, i: nat)
    requires Run(run) && i + 1 < |run|
    requires (run[i].holder.Nobody? || run[i].holder.Returns?) && run[i + 1].holder.Begins?
    ensures var t, v := run[i + 1], run[i + 1].holder.svc;
            Count(t.served, v) < Count(t.asked, v)
            && (v == Output ==> Count(t.served, Timers) == Count(t.asked, Timers))
            && (v == Input ==> Count(t.served, Timers) == Count(t.asked, Timers)
                               && Count(t.served, Output) == Count(t.asked, Output))
  {
    RunInv(run, i);
    RunInv(run, i + 1);
    assert Step(run[i], run[i + 1]);
    InTurn(run[i], run[i + 1]);
    assert Minded(run[i + 1], Timers) && Minded(run[i + 1], Output) && Minded(run[i + 1], Input);
    hide Step, Inv, Run;
  }

  // ----- getting done

  /** The holder alone: nothing is posted meanwhile. */
  ghost predicate Quiet(run: seq<State>) {
    run != [] && forall i :: 0 <= i < |run| - 1 ==> Move(run[i], run[i + 1])
  }

  predicate Back(s: State) {
    s.holder == Returns || s.holder == Nobody
  }

  ghost predicate BackWithin(run: seq<State>, i: nat, n: nat) {
    exists j :: i <= j < i + n && j < |run| && Back(run[j])
  }

  /** Each service routine comes back: in any `n` states one after another the holder is in the loop once. */
  ghost predicate Prompt(run: seq<State>, n: nat) {
    forall i: nat :: i + n <= |run| ==> BackWithin(run, i, n)
  }

  function Pending(f: Flags): nat {
    (if f.timer then 1 else 0) + (if f.out then 1 else 0) + (if f.inp then 1 else 0)
  }

  /** How often the holder can still be in the loop. */
  function Rounds(s: State): nat {
    match s.holder
    case Nobody => 0
    case Begins(v) => Pending(With(s.flags, v, false)) + 1
    case Works(Input) => Pending(With(s.flags, Input, false)) + 1
    case _ => Pending(s.flags) + 1
  }

  lemma MoveRounds(s: State, s': State)
    requires Inv(s) && Move(s, s')
    ensures Rounds(s') <= Rounds(s) && (s.holder == Returns ==> Rounds(s') < Rounds(s))
    ensures s'.asked == s.asked && s'.posted == s.posted
  {
  }

  lemma {:induction false} QuietRounds(run: seq<State>, i: nat, j: nat)
    requires Quiet(run) && Inv(run[0]) && i <= j < |run|
    ensures Inv(run[j]) && Rounds(run[j]) <= Rounds(run[i])
    ensures run[j].asked == run[0].asked && run[j].posted == run[0].posted
    decreases j
  {
    hide Inv, Move, Rounds;
    if j > 0 {
      QuietRounds(run, if i == j then i - 1 else i, j - 1);
      assert Move(run[j - 1], run[j - 1 + 1]);
      MoveInv(run[j - 1], run[j]);
      MoveRounds(run[j - 1], run[j]);
    }
  }

  lemma {:induction false} EndsFrom(run: seq<State>, n: nat, i: nat)
    requires Quiet(run) && Inv(run[0]) && Prompt(run, n) && n > 0 && i < |run|
    ensures |run| <= i + n * Rounds(run[i]) + 1
    decreases Rounds(run[i])
  {
    hide Inv, Move, Rounds;
    var c := Rounds(run[i]);
    HasRounds(run[i]);
    if run[i].holder == Nobody {
      EndsThere(run, i);
    } else if i + n <= |run| {
      Fewer(n, 1, c);
      assert BackWithin(run, i, n);
      var j :| i <= j < i + n && j < |run| && Back(run[j]);
      QuietRounds(run, i, j);
      if run[j].holder == Nobody {
        EndsThere(run, j);
      } else if j + 1 < |run| {
        NextRound(run, j);
        EndsFrom(run, n, j + 1);
        Fewer(n, Rounds(run[j + 1]) + 1, c);
        OneMore(n, Rounds(run[j + 1]));
      }
    } else {
      Fewer(n, 1, c);
    }
  }

  lemma NextRound(run: seq<State>, j: nat)
    requires Quiet(run) && Inv(run[0]) && j + 1 < |run| && run[j].holder == Returns
    ensures Rounds(run[j + 1]) < Rounds(run[j])
  {
    hide Inv, Move, Rounds;
    QuietRounds(run, j, j);
    assert Move(run[j], run[j + 1]);
    MoveRounds(run[j], run[j + 1]);
  }

  lemma OneMore(n: nat, c: nat)
    ensures n * (c + 1) == n * c + n && n * c >= 0
  {
  }

  lemma HasRounds(s: State)
    ensures s.holder != Nobody <==> Rounds(s) > 0
    ensures Rounds(s) <= 4
  {
  }

  lemma Fewer(n: nat, x: nat, y: nat)
    requires x <= y
    ensures n * x <= n * y
  {
  }

  lemma EndsThere(run: seq<State>, j: nat)
    requires Quiet(run) && j < |run| && run[j].holder == Nobody
    ensures j == |run| - 1
  {
    assert j + 1 < |run| ==> Move(run[j], run[j + 1]);
  }

  /** The holder getting on by the shortest way. */
  function Onward(s: State): State {
    match s.holder
    case Nobody => s
    case Begins(v) => Begin(s, v)
    case Works(Input) => s.(holder := Begins(Input))
    case Works(_) => s.(holder := Returns)
    case Returns => Choose(s)
  }

  /** How near the holder is to the loop. */
  function Stage(h: Holder): nat {
    match h
    case Works(Input) => 2
    case Begins(_) => 2
    case Works(_) => 1
    case _ => 0
  }

  lemma OnwardNearer(s: State)
    requires Inv(s) && s.holder != Nobody
    ensures Move(s, Onward(s))
    ensures var t := Onward(s);
            Rounds(t) < Rounds(s)
            || (Rounds(t) == Rounds(s)
                && (|t.inq| < |s.inq| || (|t.inq| == |s.inq| && (Stage(t.holder) < Stage(s.holder)
                    || (s.holder == Works(Input) && t.holder == Begins(Input))))))
  {
  }

  /** If nothing more is posted and each service routine comes back within n states, then the holder gets on for
      4 n states at the most, and he can get on until he has let go: then every request made has been served and
      every segment taken. */
  lemma LetsGo(run: seq<State>, n: nat)
    requires Quiet(run) && Inv(run[0]) && Prompt(run, n) && n > 0
    ensures |run| <= 4 * n + 1
    ensures var f := run[|run| - 1];
            if f.holder != Nobody then Move(f, Onward(f))
            else !f.lock && f.inq == [] && f.taken == run[0].posted && None(f.flags)
                 && forall v :: Count(f.served, v) == Count(run[0].asked, v)
  {
    HasRounds(run[0]);
    Fewer(n, Rounds(run[0]), 4);
    EndsFrom(run, n, 0);
    QuietRounds(run, 0, |run| - 1);
    var f := run[|run| - 1];
    if f.holder != Nobody {
      OnwardNearer(f);
    } else {
      assert f.taken + [] == f.taken;
      forall v
        ensures Count(f.served, v) == Count(f.asked, v)
      {
        assert Minded(f, v);
      }
    }
  }

  /** And there always is a way to get that far. */
  lemma {:induction false} CanFinish(s: State) returns (run: seq<State>)
    requires Inv(s)
    ensures Quiet(run) && run[0] == s && run[|run| - 1].holder == Nobody
    decreases Rounds(s), |s.inq|, Stage(s.holder), s.holder.Works?
  {
    hide Inv, Move, Rounds, Onward;
    if s.holder == Nobody {
      return [s];
    }
    OnwardNearer(s);
    MoveInv(s, Onward(s));
    var rest := CanFinish(Onward(s));
    run := [s] + rest;
    forall i | 0 <= i < |run| - 1
      ensures Move(run[i], run[i + 1])
    {
      assert i > 0 ==> Move(rest[i - 1], rest[i - 1 + 1]);
    }
  }

  // ----- the code

  class Io {
    var flags: Flags
    var lock: bool
    var t_inq: seq<Message>
    ghost var holder: Holder
    ghost var posted: seq<Message>
    ghost var taken: seq<Message>
    ghost var asked: map<Service, nat>
    ghost var served: map<Service, nat>

    ghost function Abs(): State
      reads this
    {
      State(flags, lock, t_inq, holder, posted, taken, asked, served)
    }

    constructor ()
      ensures Abs() == Idle()
    {
      flags, lock, t_inq, holder := Flags(false, false, false), false, [], Nobody;
      posted, taken, asked, served := [], [], map[], map[];
    }

    /** The choice at the top of the loop: a routine to call, or the lock dropped. */
    method Next() returns (go: bool, func: Service)
      requires lock
      modifies this
      ensures Abs() == Choose(old(Abs())) && go == !None(old(flags)) && (go ==> func == First(old(flags)))
    {
      go, func := true, Timers;
      if flags.timer {
        func := Timers;
      } else if flags.out {
        func := Output;
      } else if flags.inp {
        func := Input;
      } else {
        lock, go := false, false;
      }
      holder := if go then Begins(func) else Nobody;
    }

    /** `yhtp_io` up to its first `splx`. */
    method Enter(r: Request) returns (go: bool, func: Service)
      modifies this
      ensures Abs() == Post(old(Abs()), r)
      ensures go ==> !old(lock) && func == First(flags)
      ensures old(lock) ==> !go
    {
      var v := Asks(r);
      if r.Segment? {
        t_inq := t_inq + [r.seg];
        posted := posted + [r.seg];
      }
      flags := With(flags, v, true);
      asked := asked[v := Count(asked, v) + 1];
      go, func := false, Timers;
      if !lock {
        lock := true;
        go, func := Next();
      }
    }

    /** The protected part of `yhtp_uinput`: a segment to process, or the request answered. */
    method TakeInput() returns (more: bool, seg: Message)
      requires holder == Begins(Input)
      modifies this
      ensures Abs() == Begin(old(Abs()), Input) && more == (old(t_inq) != [])
      ensures more ==> seg == old(t_inq)[0]
    {
      more, seg := t_inq != [], [];
      if more {
        seg := t_inq[0];
        t_inq, taken := t_inq[1..], taken + [seg];
        holder := Works(Input);
      } else {
        flags := flags.(inp := false);
        served := served[Input := Count(asked, Input)];
        holder := Returns;
      }
    }

    /** The protected part of `yhtp_output`. */
    method StartOutput()
      requires holder == Begins(Output)
      modifies this
      ensures Abs() == Begin(old(Abs()), Output)
    {
      flags := flags.(out := false);
      served := served[Output := Count(asked, Output)];
      holder := Works(Output);
    }

    /** The protected part of `yhtp_dotimers`. */
    method StartTimers()
      requires holder == Begins(Timers)
      modifies this
      ensures Abs() == Begin(old(Abs()), Timers)
    {
      flags := flags.(timer := false);
      served := served[Timers := Count(asked, Timers)];
      holder := Works(Timers);
    }
  }
}
