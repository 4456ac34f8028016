/** Any text whatever: the brackets and back-references of the code that `compile` makes of it. */
module RegexBrackets {
  import opened Bytes
  import opened RegexCode
  import opened RegexCompile

  // ----- code, instruction by instruction

  datatype Kind = Opens(k: byte) | Closes(k: byte) | Refers(k: byte) | Other(bytes: seq<byte>)

  datatype Repeat = Starred | Bounded(lo: byte, hi: byte)

  /** An instruction with all the repetitions that have been put on it, one after the other. */
  datatype Instr = Instr(kind: Kind, reps: seq<Repeat>)

  function KindCode(k: Kind): seq<byte> {
    match k
    case Opens(n) => [CBRA, n]
    case Closes(n) => [CKET, n]
    case Refers(n) => [CBACK, n]
    case Other(bytes) => bytes
  }

  /** The other instructions: a character, any character, the end of the line, and classes with their maps. */
  predicate KindFine(k: Kind) {
    match k
    case Other(bytes) =>
      bytes == [CDOT] || bytes == [CDOL] || (|bytes| == 2 && bytes[0] == CCHR)
      || (|bytes| == 17 && (bytes[0] == CCL || bytes[0] == NCCL)) || (|bytes| == 33 && bytes[0] == CXCL)
    case _ => true
  }

  /** A star marks the opcode; an interval marks it too and leaves two bytes at the end. */
  function Repeated(code: seq<byte>, r: Repeat): seq<byte> {
    if code == [] then []
    else
      match r
      case Starred => code[0 := OrStar(code[0])]
      case Bounded(lo, hi) => code[0 := OrRnge(code[0])] + [lo, hi]
  }

  function RepeatedAll(code: seq<byte>, reps: seq<Repeat>): seq<byte> {
    if reps == [] then code else Repeated(RepeatedAll(code, reps[..|reps| - 1]), reps[|reps| - 1])
  }

  function InstrCode(x: Instr): seq<byte> {
    RepeatedAll(KindCode(x.kind), x.reps)
  }

  function AllCode(prog: seq<Instr>): seq<byte> {
    if prog == [] then [] else AllCode(prog[..|prog| - 1]) + InstrCode(prog[|prog| - 1])
  }

  function Kinds(prog: seq<Instr>): seq<Kind> {
    seq(|prog|, i requires 0 <= i < |prog| => prog[i].kind)
  }

  ghost predicate AllFine(ks: seq<Kind>) {
    forall i :: 0 <= i < |ks| ==> KindFine(ks[i])
  }

  // ----- brackets

  function Opened(ks: seq<Kind>): nat {
    if ks == [] then 0 else Opened(ks[..|ks| - 1]) + if ks[|ks| - 1].Opens? then 1 else 0
  }

  function Closed(ks: seq<Kind>): nat {
    if ks == [] then 0 else Closed(ks[..|ks| - 1]) + if ks[|ks| - 1].Closes? then 1 else 0
  }

  /** What stands at i fits what is before it: a bracket opened has the next number; one closed has been opened and not
      closed yet, and is the last such; a reference has a number below that of the brackets closed. */
  ghost predicate FitsAt(ks: seq<Kind>, i: nat)
    requires i < |ks|
  {
    var before := ks[..i];
    match ks[i]
    case Opens(k) => k == Opened(before) < 9
    case Closes(k) =>
      Opens(k) in before && Closes(k) !in before
      && forall b: byte :: Opens(b) in before && b > k ==> Closes(b) in before
    case Refers(k) => k < Closed(before)
    case Other(_) => true
  }

  ghost predicate Nested(ks: seq<Kind>) {
    forall i :: 0 <= i < |ks| ==> FitsAt(ks, i)
  }

  ghost predicate AllClosed(ks: seq<Kind>) {
    forall k: byte :: Opens(k) in ks ==> Closes(k) in ks
  }

  /** The stack has what is open, and its numbers go up. */
  ghost predicate Stacked(ks: seq<Kind>, stack: seq<byte>, nbra: nat) {
    (forall b: byte :: b in stack <==> Opens(b) in ks && Closes(b) !in ks)
    && (forall i, j :: 0 <= i < j < |stack| ==> stack[i] < stack[j])
    && (forall b: byte :: Opens(b) in ks || Closes(b) in ks ==> b < nbra)
  }

  /** The compiler's stack has the brackets that are open, in the order of opening. */
  ghost predicate Tracks(ks: seq<Kind>, stack: seq<byte>, nbra: nat, closed: nat) {
    AllFine(ks) && Nested(ks) && nbra == Opened(ks) <= 9 && closed == Closed(ks) && Stacked(ks, stack, nbra)
  }

  lemma NestedMore(ks: seq<Kind>, k: Kind)
    requires Nested(ks) && FitsAt(ks + [k], |ks|)
    ensures Nested(ks + [k])
  {
    var more := ks + [k];
    forall i | 0 <= i < |more|
      ensures FitsAt(more, i)
    {
      if i < |ks| {
        assert more[..i] == ks[..i];
        assert FitsAt(ks, i);
      }
    }
  }

  lemma InMore(ks: seq<Kind>, k: Kind, x: Kind)
    ensures x in ks + [k] <==> x in ks || x == k
  {
  }

  lemma OpenStacked(ks: seq<Kind>, stack: seq<byte>, b: byte)
    requires Stacked(ks, stack, b)
    ensures Stacked(ks + [Opens(b)], stack + [b], b + 1)
  {
    var more := ks + [Opens(b)];
    forall i | 0 <= i < |stack|
      ensures stack[i] < b
    {
      assert stack[i] in stack;
    }
    forall c: byte
      ensures Opens(c) in more <==> Opens(c) in ks || c == b
      ensures Closes(c) in more <==> Closes(c) in ks
    {
      InMore(ks, Opens(b), Opens(c));
      InMore(ks, Opens(b), Closes(c));
    }
  }

  lemma FineMore(ks: seq<Kind>, k: Kind)
    requires AllFine(ks) && KindFine(k)
    ensures AllFine(ks + [k])
  {
  }

  lemma OpenTracks(ks: seq<Kind>, stack: seq<byte>, nbra: nat, closed: nat)
    requires Tracks(ks, stack, nbra, closed) && nbra < 9
    ensures Tracks(ks + [Opens(nbra)], stack + [nbra as byte], nbra + 1, closed)
  {
    hide Nested, Opened, Closed, AllFine;
    assert (ks + [Opens(nbra)])[..|ks|] == ks;
    FineMore(ks, Opens(nbra));
    NestedMore(ks, Opens(nbra));
    OpenStacked(ks, stack, nbra);
    Counts(ks, Opens(nbra));
  }

  lemma Counts(ks: seq<Kind>, k: Kind)
    ensures Opened(ks + [k]) == Opened(ks) + if k.Opens? then 1 else 0
    ensures Closed(ks + [k]) == Closed(ks) + if k.Closes? then 1 else 0
  {
    assert (ks + [k])[..|ks|] == ks;
  }

  lemma CloseTracks(ks: seq<Kind>, stack: seq<byte>, nbra: nat, closed: nat)
    requires Tracks(ks, stack, nbra, closed) && stack != []
    ensures var top := |stack| - 1; Tracks(ks + [Closes(stack[top])], stack[..top], nbra, closed + 1)
  {
    var top := |stack| - 1;
    var k := stack[top];
    var more := ks + [Closes(k)];
    assert more[..|ks|] == ks;
    assert k in stack;
    forall b: byte | Opens(b) in ks && b > k
      ensures Closes(b) in ks
    {
      if b in stack {
        assert false;
      }
    }
    FineMore(ks, Closes(k));
    NestedMore(ks, Closes(k));
    Counts(ks, Closes(k));
    hide Nested, Opened, Closed, AllFine;
    forall b: byte
      ensures b in stack[..top] <==> b in stack && b != k
    {
      assert stack == stack[..top] + [k];
    }
  }

  lemma PlainTracks(ks: seq<Kind>, stack: seq<byte>, nbra: nat, closed: nat, k: Kind)
    requires Tracks(ks, stack, nbra, closed) && KindFine(k) && (k.Other? || (k.Refers? && k.k < closed))
    ensures Tracks(ks + [k], stack, nbra, closed)
  {
    assert (ks + [k])[..|ks|] == ks;
    FineMore(ks, k);
    NestedMore(ks, k);
    Counts(ks, k);
    hide Nested, Opened, Closed, AllFine, KindFine;
  }

  // ----- the compiler's variables

  ghost predicate Written(s: Comp, prog: seq<Instr>) {
    s.code == AllCode(prog)
    && if prog == [] then s.last == -1
       else s.last == |AllCode(prog[..|prog| - 1])| < |s.code|
  }

  ghost predicate Holds(s: Comp, prog: seq<Instr>) {
    Written(s, prog) && Tracks(Kinds(prog), s.stack, s.nbra, s.closed)
  }

  lemma MoreWritten(s: Comp, prog: seq<Instr>, k: Kind, s': Comp)
    requires Written(s, prog) && KindCode(k) != [] && s'.code == s.code + KindCode(k) && s'.last == |s.code|
    ensures Written(s', prog + [Instr(k, [])]) && Kinds(prog + [Instr(k, [])]) == Kinds(prog) + [k]
  {
    var more := prog + [Instr(k, [])];
    assert more[..|prog|] == prog;
    assert InstrCode(Instr(k, [])) == KindCode(k);
  }

  function OnLast(prog: seq<Instr>, r: Repeat): seq<Instr>
    requires prog != []
  {
    var n := |prog| - 1;
    prog[..n] + [Instr(prog[n].kind, prog[n].reps + [r])]
  }

  lemma RepeatWritten(s: Comp, prog: seq<Instr>, r: Repeat, s': Comp)
    requires Written(s, prog) && prog != [] && s'.last == s.last
    requires s'.code == match r
                        case Starred => s.code[s.last := OrStar(s.code[s.last])]
                        case Bounded(lo, hi) => s.code[s.last := OrRnge(s.code[s.last])] + [lo, hi]
    ensures Written(s', OnLast(prog, r)) && Kinds(OnLast(prog, r)) == Kinds(prog)
  {
    var n, more := |prog| - 1, OnLast(prog, r);
    var before, last := AllCode(prog[..n]), InstrCode(prog[n]);
    assert more[..n] == prog[..n];
    assert (prog[n].reps + [r])[..|prog[n].reps|] == prog[n].reps;
    assert InstrCode(more[n]) == Repeated(last, r);
    hide InstrCode, OrStar, OrRnge;
    assert s.code == before + last;
    assert s.code[s.last] == last[0];
    assert s'.code == before + Repeated(last, r);
  }

  // ----- the loop

  lemma PlainHolds(s: Comp, prog: seq<Instr>, k: Kind, s': Comp)
    requires Holds(s, prog) && KindFine(k) && (k.Other? || (k.Refers? && k.k < s.closed))
    requires s' == s.(code := s.code + KindCode(k), last := |s.code|)
    ensures Holds(s', prog + [Instr(k, [])])
  {
    hide Written, Tracks, Kinds;
    assert KindCode(k) != [];
    MoreWritten(s, prog, k, s');
    PlainTracks(Kinds(prog), s.stack, s.nbra, s.closed, k);
  }

  lemma OpenHolds(s: Comp, prog: seq<Instr>, s': Comp)
    requires Holds(s, prog) && s.nbra < 9
    requires s' == Emit(s, [CBRA, s.nbra]).(stack := s.stack + [s.nbra as byte], nbra := s.nbra + 1)
    ensures Holds(s', prog + [Instr(Opens(s.nbra), [])])
  {
    hide Written, Tracks, Kinds;
    MoreWritten(s, prog, Opens(s.nbra), s');
    OpenTracks(Kinds(prog), s.stack, s.nbra, s.closed);
  }

  lemma CloseHolds(s: Comp, prog: seq<Instr>, s': Comp)
    requires Holds(s, prog) && s.stack != []
    requires var top := |s.stack| - 1;
             s' == Emit(s, [CKET, s.stack[top]]).(stack := s.stack[..top], closed := s.closed + 1)
    ensures Holds(s', prog + [Instr(Closes(s.stack[|s.stack| - 1]), [])])
  {
    hide Written, Tracks, Kinds;
    MoreWritten(s, prog, Closes(s.stack[|s.stack| - 1]), s');
    CloseTracks(Kinds(prog), s.stack, s.nbra, s.closed);
  }

  lemma RepeatHolds(s: Comp, prog: seq<Instr>, r: Repeat, s': Comp)
    requires Holds(s, prog) && prog != []
    requires s' == s.(code := s'.code)
    requires s'.code == match r
                        case Starred => s.code[s.last := OrStar(s.code[s.last])]
                        case Bounded(lo, hi) => s.code[s.last := OrRnge(s.code[s.last])] + [lo, hi]
    ensures Holds(s', OnLast(prog, r))
  {
    hide Tracks, Kinds, OnLast;
    RepeatWritten(s, prog, r, s');
  }

  lemma LastThere(s: Comp, prog: seq<Instr>)
    requires Holds(s, prog)
    ensures s.last == -1 <==> prog == []
    ensures prog != [] ==> 0 <= s.last < |s.code|
    ensures s.nbra <= 9
  {
  }

  /** A turn of the loop adds an instruction, or repeats the last. */
  lemma TurnHolds(pat: seq<byte>, sp: nat, eof: byte, sed: bool, room: int, s: Comp, prog: seq<Instr>)
    returns (prog': seq<Instr>)
    requires Holds(s, prog) && Sound(s) && Turn(pat, sp, eof, sed, room, s).Go?
    ensures Holds(Turn(pat, sp, eof, sed, room, s).s, prog')
  {
    hide Holds, KindCode, OnLast, IntervalAt, ClassAt, OrStar, OrRnge;
    LastThere(s, prog);
    var s' := Turn(pat, sp, eof, sed, room, s).s;
    var c := Get(pat, sp);
    if c == ASTERISK && s.last != -1 && s.code[s.last] != CBRA && s.code[s.last] != CKET {
      prog' := OnLast(prog, Starred);
      RepeatHolds(s, prog, Starred, s');
    } else if c == BACKSLASH {
      prog' := EscapeHolds(pat, sp + 1, s, prog);
    } else {
      var bytes := s'.code[|s.code|..];
      OtherCode(bytes);
      ClassKind(pat, sp + 1, room - |s.code| - 1);
      prog' := prog + [Instr(Other(bytes), [])];
      PlainHolds(s, prog, Other(bytes), s');
    }
  }

  lemma OtherCode(bytes: seq<byte>)
    ensures KindCode(Other(bytes)) == bytes
  {
  }

  lemma ClassKind(pat: seq<byte>, sp: nat, room: int)
    ensures ClassAt(pat, sp, room).Got? ==> KindFine(Other(ClassAt(pat, sp, room).value))
  {
    hide ClassLoop;
  }

  lemma EscapeHolds(pat: seq<byte>, sp: nat, s: Comp, prog: seq<Instr>) returns (prog': seq<Instr>)
    requires Holds(s, prog) && Sound(s) && Escape(pat, sp, s).Go?
    ensures Holds(Escape(pat, sp, s).s, prog')
  {
    hide Holds, OnLast, IntervalAt, OrStar, OrRnge;
    LastThere(s, prog);
    var s' := Escape(pat, sp, s).s;
    var c := Get(pat, sp);
    if c == LPAREN {
      prog' := prog + [Instr(Opens(s.nbra), [])];
      OpenHolds(s, prog, s');
    } else if c == RPAREN {
      prog' := prog + [Instr(Closes(s.stack[|s.stack| - 1]), [])];
      CloseHolds(s, prog, s');
    } else if c == LBRACE && s.last != -1 {
      var b := IntervalAt(pat, sp + 1).value;
      prog' := OnLast(prog, Bounded(b.0, b.1));
      RepeatHolds(s, prog, Bounded(b.0, b.1), s');
    } else if DIGIT1 <= c <= DIGIT9 {
      prog' := prog + [Instr(Refers(c - DIGIT1), [])];
      PlainHolds(s, prog, Refers(c - DIGIT1), s');
    } else {
      var k := Other([CCHR, if c == LOWERN then NEWLINE else c]);
      prog' := prog + [Instr(k, [])];
      PlainHolds(s, prog, k, s');
    }
  }

  lemma {:induction false} LoopHolds(pat: seq<byte>, sp: nat, eof: byte, sed: bool, room: int, s: Comp,
                                     prog: seq<Instr>)
    returns (prog': seq<Instr>)
    requires Holds(s, prog) && Sound(s) && Loop(pat, sp, eof, sed, room, s).Stop?
    ensures var r := Loop(pat, sp, eof, sed, room, s);
            r.code == AllCode(prog') + [CCEOF] && AllFine(Kinds(prog')) && Nested(Kinds(prog'))
            && AllClosed(Kinds(prog')) && r.nbra == Opened(Kinds(prog'))
    decreases if room > |s.code| then room - |s.code| else 0, |pat| - sp
  {
    hide Turn, Holds, AllCode, AllFine, Nested, AllClosed, Kinds, Opened;
    var t := Turn(pat, sp, eof, sed, room, s);
    if t.Go? {
      var more := TurnHolds(pat, sp, eof, sed, room, s, prog);
      prog' := LoopHolds(pat, t.sp, eof, sed, room, t.s, more);
    } else {
      prog' := prog;
      StopClosed(pat, sp, eof, sed, room, s, prog);
    }
  }

  lemma StopClosed(pat: seq<byte>, sp: nat, eof: byte, sed: bool, room: int, s: Comp, prog: seq<Instr>)
    requires Holds(s, prog) && Sound(s) && Turn(pat, sp, eof, sed, room, s).Stop?
    ensures var r := Turn(pat, sp, eof, sed, room, s);
            r.code == AllCode(prog) + [CCEOF] && AllFine(Kinds(prog)) && Nested(Kinds(prog)) && AllClosed(Kinds(prog))
            && r.nbra == Opened(Kinds(prog))
  {
    hide AllFine, Nested, Opened, Closed, AllCode, Kinds, ClassAt, IntervalAt;
  }

  lemma HoldsNothing()
    ensures Holds(Comp([], -1, [], 0, 0), [])
  {
  }

  /** Whatever the text, if `compile` accepts it, its code is that of instructions in which the brackets, nine at the
      most, are numbered in the order of opening, nest and are all closed, and each back-reference has more brackets
      closed to its left than its number. */
  lemma AcceptedNests(pat: seq<byte>, eof: byte, sed: bool, room: int, previous: bool) returns (prog: seq<Instr>)
    requires CompileOf(pat, eof, sed, room, previous).Compiled?
    ensures var r := CompileOf(pat, eof, sed, room, previous);
            r.code == AllCode(prog) + [CCEOF] && AllFine(Kinds(prog)) && Nested(Kinds(prog)) && AllClosed(Kinds(prog))
            && r.nbra == Opened(Kinds(prog))
  {
    hide Loop, AllFine, Nested, AllClosed, AllCode, Opened, Kinds, Holds;
    HoldsNothing();
    prog := LoopHolds(pat, if Get(pat, 0) == CARET then 1 else 0, eof, sed, room, Comp([], -1, [], 0, 0), []);
  }
}
