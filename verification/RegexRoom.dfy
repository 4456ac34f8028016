/** The byte at `endbuf`: which well-formed patterns make the compiler write it, read off their code. */
module RegexRoom {
  import opened Bytes
  import opened RegexMeaning
  import opened RegexCode
  import opened RegexSyntax
  import opened RegexCompile
  import opened RegexRoundTrip

  /** The bytes of an operator that are written before its interval is met. */
  function Head(op: Op): int {
    |Enc(op)| - |Suffix(op)|
  }

  /** The operator's code stands `room` bytes below endbuf, and an instruction or an interval of two bytes
      begins at the last of them. */
  predicate Cut(op: Op, room: int) {
    (Head(op) == 2 && room == 1) || (op.Between? && room == Head(op) + 1)
  }

  /** In the code of the operators, an instruction or an interval of two bytes begins at endbuf - 1. */
  ghost predicate Straddles(ops: seq<Op>, room: int) {
    exists i :: 0 <= i < |ops| && Cut(ops[i], room - |EncAll(ops[..i])|)
  }

  lemma PrefixCode(ops: seq<Op>, i: nat)
    requires i < |ops|
    ensures |EncAll(ops[..i + 1])| == |Enc(ops[0])| + |EncAll(ops[1..][..i])|
  {
    assert ops[..i + 1][1..] == ops[1..][..i];
  }

  lemma StraddlesFirst(ops: seq<Op>, room: int)
    requires ops != [] && (Cut(ops[0], room) || Straddles(ops[1..], room - |Enc(ops[0])|))
    ensures Straddles(ops, room)
  {
    hide Cut, Enc, EncAll;
    var rest, less := ops[1..], room - |Enc(ops[0])|;
    if Cut(ops[0], room) {
      NoCode(ops);
      assert Cut(ops[0], room - |EncAll(ops[..0])|);
    } else {
      var i :| 0 <= i < |rest| && Cut(rest[i], less - |EncAll(rest[..i])|);
      PrefixCode(ops, i);
      assert Cut(ops[i + 1], room - |EncAll(ops[..i + 1])|);
    }
  }

  lemma NoCode(ops: seq<Op>)
    ensures |EncAll(ops[..0])| == 0
  {
  }

  lemma StraddlesRest(ops: seq<Op>, room: int)
    requires ops != [] && Straddles(ops, room) && !Cut(ops[0], room)
    ensures Straddles(ops[1..], room - |Enc(ops[0])|)
  {
    hide Cut, Enc, EncAll;
    var rest, less := ops[1..], room - |Enc(ops[0])|;
    var i :| 0 <= i < |ops| && Cut(ops[i], room - |EncAll(ops[..i])|);
    NoCode(ops);
    assert i > 0;
    PrefixCode(ops, i - 1);
    assert Cut(rest[i - 1], less - |EncAll(rest[..i - 1])|);
  }

  lemma StraddlesStep(ops: seq<Op>, room: int)
    requires ops != []
    ensures Straddles(ops, room) <==> Cut(ops[0], room) || Straddles(ops[1..], room - |Enc(ops[0])|)
  {
    hide Straddles, Cut, Enc;
    if Cut(ops[0], room) || Straddles(ops[1..], room - |Enc(ops[0])|) {
      StraddlesFirst(ops, room);
    }
    if Straddles(ops, room) && !Cut(ops[0], room) {
      StraddlesRest(ops, room);
    }
  }

  /** Code that fits below endbuf has nothing across it. */
  lemma {:induction false} FitsOrNot(ops: seq<Op>, room: int)
    requires Straddles(ops, room)
    ensures 1 <= room < |EncAll(ops)|
  {
    StraddlesStep(ops, room);
    if !Cut(ops[0], room) {
      FitsOrNot(ops[1..], room - |Enc(ops[0])|);
    }
  }

  // ----- the loop, turn by turn

  lemma UnitHead(it: Item, alone: bool, ctx: Ctx, eof: byte)
    requires ItemFine(it, alone, ctx, eof)
    ensures |Enc(UnitOp(it, ctx))| == Head(OpOf(it, ctx))
    ensures OpOf(it, ctx).Between? <==> it.r != Once && !it.r.Star?
    ensures if it.u.Bracketed? then |Enc(UnitOp(it, ctx))| > 2 else 1 <= |Enc(UnitOp(it, ctx))| <= 2
  {
    match it.u
    case Lit(c, _) => SameHead(Chr(c), it.r);
    case Dot => SameHead(Any, it.r);
    case Bracketed(k) => SameHead(Cls(k), it.r);
    case _ =>
  }

  lemma SameHead(a: Atom, r: Rep)
    ensures |Enc(One(a))| == Head(Repeat(a, r)) == 1 + |AtomArg(a)|
  {
  }

  /** A turn over a unit writes at endbuf when its instruction of two bytes begins just below. */
  lemma UnitOverruns(pat: seq<byte>, sp: nat, eof: byte, sed: bool, room: int, s: Comp, it: Item, alone: bool,
                     ctx: Ctx, sp1: nat, u: Comp)
    requires Rel(s, ctx) && ItemFine(it, alone, ctx, eof)
    requires Has(pat, sp, ShowUnit(it.u)) && PeekFine(pat, sp, it.u, eof)
    requires u == Next(s, Enc(UnitOp(it, ctx)), it, ctx) && Sound(u) && sp1 == sp + |ShowUnit(it.u)|
    ensures Overruns(pat, sp, eof, sed, room, s)
            <==> (Head(OpOf(it, ctx)) == 2 && room - |s.code| == 1) || Overruns(pat, sp1, eof, sed, room, u)
  {
    hide Turn, TurnWrites, ItemFine, Enc, OpOf, PeekFine, Head, ShowUnit;
    UnitTurn(pat, sp, eof, sed, room, s, it, alone, ctx);
    UnitHead(it, alone, ctx, eof);
    if |s.code| < room {
      PastEnd(pat, sp, eof, sed, room, s);
      if it.u.Bracketed? {
        ClassWrites(pat, sp, eof, sed, s, it, alone, ctx);
      }
    }
  }

  lemma ClassWrites(pat: seq<byte>, sp: nat, eof: byte, sed: bool, s: Comp, it: Item, alone: bool, ctx: Ctx)
    requires Sound(s) && ItemFine(it, alone, ctx, eof) && it.u.Bracketed? && Has(pat, sp, ShowUnit(it.u))
    ensures TurnWrites(pat, sp, eof, sed, s) == 0
  {
    assert ShowUnit(it.u)[0] == LBRACKET;
    assert pat[sp + 0] == LBRACKET;
  }

  /** And over an interval, when its two bytes do. */
  lemma RepOverruns(pat: seq<byte>, sp: nat, eof: byte, sed: bool, room: int, s: Comp, it: Item, alone: bool,
                    ctx: Ctx, sp2: nat, u: Comp, next: Comp)
    requires Rel(s, ctx) && ItemFine(it, alone, ctx, eof) && it.r != Once && Has(pat, sp, ShowRep(it.r))
    requires u == Next(s, Enc(UnitOp(it, ctx)), it, ctx) && Sound(u) && sp2 == sp + |ShowRep(it.r)|
    requires next == Next(s, Enc(OpOf(it, ctx)), it, ctx) && Sound(next)
    ensures Overruns(pat, sp, eof, sed, room, u)
            <==> (OpOf(it, ctx).Between? && room - |s.code| == Head(OpOf(it, ctx)) + 1)
                 || Overruns(pat, sp2, eof, sed, room, next)
  {
    hide Turn, TurnWrites, ItemFine, Enc, OpOf, ShowRep, UnitOp;
    RepTurn(pat, sp, eof, sed, room, s, it, alone, ctx);
    UnitHead(it, alone, ctx, eof);
    if |u.code| < room {
      PastEnd(pat, sp, eof, sed, room, u);
    }
  }

  /** One item. */
  lemma ItemOverruns(pat: seq<byte>, sp: nat, eof: byte, sed: bool, room: int, s: Comp, items: seq<Item>, ctx: Ctx,
                     t: byte, sp2: nat, next: Comp)
    requires Rel(s, ctx) && items != [] && ItemsFine(items, ctx, eof) && (t == eof || (t == NEWLINE && !sed))
    requires Has(pat, sp, ShowItems(items) + [t])
    requires sp2 == sp + |ShowUnit(items[0].u)| + |ShowRep(items[0].r)|
    requires next == Next(s, Enc(OpOf(items[0], ctx)), items[0], ctx)
    ensures Rel(next, After(items[0], ctx))
    ensures Overruns(pat, sp, eof, sed, room, s)
            <==> Cut(OpOf(items[0], ctx), room - |s.code|) || Overruns(pat, sp2, eof, sed, room, next)
  {
    hide Overruns, ShowUnit, ShowRep, ItemFine, ItemsFine, Enc, OpOf, PeekFine, Head, Rel, RepFine, ShowItems;
    FirstFine(items, ctx, eof);
    var it, alone := items[0], |items| == 1;
    var sp1 := sp + |ShowUnit(it.u)|;
    var u := Next(s, Enc(UnitOp(it, ctx)), it, ctx);
    SplitItems(pat, sp, items, [t]);
    FineWritten(items, ctx, eof);
    Peek(pat, sp, items, ctx, eof, [t], true);
    OpcodeOf(it, alone, ctx, eof);
    NextRel(s, Enc(UnitOp(it, ctx)), it, alone, ctx, eof);
    NextRel(s, Enc(OpOf(it, ctx)), it, alone, ctx, eof);
    UnitOverruns(pat, sp, eof, sed, room, s, it, alone, ctx, sp1, u);
    UnitHead(it, alone, ctx, eof);
    if it.r == Once {
      NoRep(it.r);
    } else {
      RepOverruns(pat, sp1, eof, sed, room, s, it, alone, ctx, sp2, u, next);
    }
  }

  lemma FirstFine(items: seq<Item>, ctx: Ctx, eof: byte)
    requires items != [] && ItemsFine(items, ctx, eof)
    ensures ItemFine(items[0], |items| == 1, ctx, eof)
  {
  }

  lemma NoRep(r: Rep)
    requires r == Once
    ensures ShowRep(r) == []
  {
  }

  lemma {:induction false} LoopOverruns(pat: seq<byte>, sp: nat, eof: byte, sed: bool, room: int, s: Comp,
                                        items: seq<Item>, ctx: Ctx, t: byte)
    requires Rel(s, ctx) && ItemsFine(items, ctx, eof) && (t == eof || (t == NEWLINE && !sed))
    requires Has(pat, sp, ShowItems(items) + [t])
    ensures Overruns(pat, sp, eof, sed, room, s) <==> Straddles(OpsOf(items, ctx), room - |s.code|)
    decreases |items|
  {
    hide Overruns, Straddles, Loop, ShowUnit, ShowRep, ItemFine, Enc, OpOf, EncAll, Cut;
    if items == [] {
      HasSame(pat, sp, ShowItems(items) + [t], [t]);
      HasOne(pat, sp, t);
      EndOverruns(pat, sp, eof, sed, room, s, t);
      NoneStraddles(room - |s.code|);
    } else {
      var it := items[0];
      var sp2 := sp + |ShowUnit(it.u)| + |ShowRep(it.r)|;
      var next := Next(s, Enc(OpOf(it, ctx)), it, ctx);
      SplitItems(pat, sp, items, [t]);
      ItemOverruns(pat, sp, eof, sed, room, s, items, ctx, t, sp2, next);
      LoopOverruns(pat, sp2, eof, sed, room, next, items[1..], After(it, ctx), t);
      OpsStep(items, ctx);
      StraddlesStep(OpsOf(items, ctx), room - |s.code|);
    }
  }

  lemma OpsStep(items: seq<Item>, ctx: Ctx)
    requires items != []
    ensures OpsOf(items, ctx) != [] && OpsOf(items, ctx)[0] == OpOf(items[0], ctx)
    ensures OpsOf(items, ctx)[1..] == OpsOf(items[1..], After(items[0], ctx))
  {
  }

  lemma NoneStraddles(room: int)
    ensures !Straddles([], room)
  {
  }

  lemma EndOverruns(pat: seq<byte>, sp: nat, eof: byte, sed: bool, room: int, s: Comp, t: byte)
    requires Sound(s) && s.stack == [] && (t == eof || (t == NEWLINE && !sed)) && Get(pat, sp) == t
    ensures !Overruns(pat, sp, eof, sed, room, s)
  {
  }

  /** Compiling a well-formed pattern writes the byte at endbuf if and only if an instruction or an interval of two
      bytes begins just below it; code that fits in the buffer never does. */
  lemma OverrunsWhen(p: Pattern, eof: byte, sed: bool, room: int, t: byte, pat: seq<byte>)
    requires PatternFine(p, eof) && (t == eof || (t == NEWLINE && !sed))
    requires Show(p) + [t] <= pat
    ensures CompileOverruns(pat, eof, sed, room) <==> Straddles(Ops(p), room)
    ensures |EncAll(Ops(p))| <= room ==> !CompileOverruns(pat, eof, sed, room)
  {
    hide Overruns, Straddles, ItemFine, ShowItems, EncAll, OpsOf;
    StartShown(p, eof, t, pat);
    LoopOverruns(pat, if p.anchored then 1 else 0, eof, sed, room, Comp([], -1, [], 0, 0), p.items, CTX0, t);
    if Straddles(Ops(p), room) {
      FitsOrNot(Ops(p), room);
    }
  }
}
