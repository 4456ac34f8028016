/** Patterns as they are written: what their text is, which are well formed, and the numbered
    operators they stand for. */
module RegexSyntax {
  import opened Bytes
  import opened RegexMeaning

  /** `escaped` says that the character is written with a backslash (a newline as `\n`). */
  datatype Unit =
    | Lit(c: byte, escaped: bool)
    | Dot
    | Bracketed(k: Class)
    | EndOfLine
    | OpenB
    | CloseB
    | Ref(d: byte)

  /** Numbers are kept as the digits they are written with. */
  datatype Rep =
    | Once
    | Star
    | Exactly(m: seq<byte>)
    | AtLeast(m: seq<byte>)
    | Range(m: seq<byte>, n: seq<byte>)

  datatype Item = Item(u: Unit, r: Rep)
  datatype Pattern = Pattern(anchored: bool, items: seq<Item>)

  // ----- text

  function ShowClassItems(rest: seq<ClassItem>): seq<byte> {
    if rest == [] then []
    else
      (match rest[0] case Single(c) => [c] case To(c) => [MINUS, c]) + ShowClassItems(rest[1..])
  }

  function ShowUnit(u: Unit): seq<byte> {
    match u
    case Lit(c, false) => [c]
    case Lit(c, true) => [BACKSLASH, if c == NEWLINE then LOWERN else c]
    case Dot => [PERIOD]
    case Bracketed(k) =>
      [LBRACKET] + (if k.neg then [CARET] else []) + [k.first] + ShowClassItems(k.rest)
      + (if k.dash then [MINUS] else []) + [RBRACKET]
    case EndOfLine => [DOLLAR]
    case OpenB => [BACKSLASH, LPAREN]
    case CloseB => [BACKSLASH, RPAREN]
    case Ref(d) => [BACKSLASH, if d < 208 then DIGIT0 + d else DIGIT0]
  }

  /** An interval from after its `\{`. */
  function ShowBounds(r: Rep): seq<byte> {
    match r
    case Exactly(m) => m + [BACKSLASH] + [RBRACE]
    case AtLeast(m) => m + [COMMA] + [BACKSLASH, RBRACE]
    case Range(m, n) => m + [COMMA] + (n + [BACKSLASH] + [RBRACE])
    case _ => []
  }

  function ShowRep(r: Rep): seq<byte> {
    match r
    case Once => []
    case Star => [ASTERISK]
    case _ => [BACKSLASH, LBRACE] + ShowBounds(r)
  }

  function ShowItems(items: seq<Item>): seq<byte> {
    if items == [] then []
    else ShowUnit(items[0].u) + ShowRep(items[0].r) + ShowItems(items[1..])
  }

  function Show(p: Pattern): seq<byte> {
    (if p.anchored then [CARET] else []) + ShowItems(p.items)
  }

  // ----- operators

  function Value(digits: seq<byte>): int {
    if digits == [] then 0
    else 10 * Value(digits[..|digits| - 1]) + (digits[|digits| - 1] - DIGIT0)
  }

  /** A number below 255, in decimal. */
  predicate Number(digits: seq<byte>) {
    digits != [] && (forall i :: 0 <= i < |digits| ==> DIGIT0 <= digits[i] <= DIGIT9)
    && 0 <= Value(digits) < 255
  }

  predicate RepFine(r: Rep) {
    match r
    case Once => true
    case Star => true
    case Exactly(m) => Number(m)
    case AtLeast(m) => Number(m)
    case Range(m, n) => Number(m) && Number(n) && Value(m) <= Value(n)
  }

  function NumByte(digits: seq<byte>): byte {
    if 0 <= Value(digits) < 256 then Value(digits) else 0
  }

  function Repeat(a: Atom, r: Rep): Op {
    match r
    case Once => One(a)
    case Star => Many(a)
    case Exactly(m) => Between(a, NumByte(m), NumByte(m))
    case AtLeast(m) => Between(a, NumByte(m), OPEN_END)
    case Range(m, n) => Between(a, NumByte(m), NumByte(n))
  }

  /** Where in a pattern an item stands: nothing before it, a bracket before it, brackets opened so
      far, brackets still open, brackets closed. */
  datatype Ctx = Ctx(start: bool, afterBracket: bool, nbra: nat, stack: seq<byte>, closed: set<byte>)

  const CTX0 := Ctx(true, false, 0, [], {})

  function OpOf(it: Item, ctx: Ctx): Op {
    match it.u
    case Lit(c, _) => Repeat(Chr(c), it.r)
    case Dot => Repeat(Any, it.r)
    case Bracketed(k) => Repeat(Cls(k), it.r)
    case EndOfLine => Dollar
    case OpenB => Open(if ctx.nbra < 256 then ctx.nbra else 0)
    case CloseB => Close(if ctx.stack == [] then 0 else ctx.stack[|ctx.stack| - 1])
    case Ref(d) => var k: byte := if d > 0 then d - 1 else 0; if it.r.Star? then BackMany(k) else Back(k)
  }

  function After(it: Item, ctx: Ctx): Ctx {
    match it.u
    case OpenB => Ctx(false, true, ctx.nbra + 1, ctx.stack + [if ctx.nbra < 256 then ctx.nbra else 0], ctx.closed)
    case CloseB =>
      if ctx.stack == [] then ctx
      else Ctx(false, true, ctx.nbra, ctx.stack[..|ctx.stack| - 1], ctx.closed + {ctx.stack[|ctx.stack| - 1]})
    case _ => ctx.(start := false, afterBracket := false)
  }

  // ----- well-formed patterns

  /** A class as it can be written: no NUL, no newline but as the end of a range, which the compiler does not
      look at, no `]` after the first character, a leading `^` only as the sign of negation, and `-` alone only
      first or last. */
  predicate ClassItemFine(i: ClassItem) {
    i.c != NUL && i.c != RBRACKET && (i.Single? ==> i.c != MINUS && i.c != NEWLINE)
  }

  predicate ClassFine(k: Class) {
    k.first != NUL && k.first != NEWLINE && (!k.neg ==> k.first != CARET)
    && forall i :: 0 <= i < |k.rest| ==> ClassItemFine(k.rest[i])
  }

  predicate IsDigitRef(c: byte) {
    DIGIT1 <= c <= DIGIT9
  }

  /** The first item of `items`, standing at `ctx`, before the delimiter `eof` or a newline.
      The compiler counts a back-reference against the number of brackets closed so far. */
  predicate ItemFine(it: Item, alone: bool, ctx: Ctx, eof: byte) {
    RepFine(it.r)
    && ShowUnit(it.u)[0] != eof
    && (it.r != Once ==> ShowRep(it.r)[0] != eof)
    && match it.u
       case Lit(c, false) =>
         c != NUL && c != NEWLINE && c != PERIOD && c != LBRACKET && c != BACKSLASH
         && (c == ASTERISK ==> ctx.start || ctx.afterBracket)
         && (c == DOLLAR ==> !alone || it.r != Once)
       case Lit(c, true) =>
         c != NUL && c != LPAREN && c != RPAREN && c != LOWERN && !IsDigitRef(c)
         && (c == LBRACE ==> ctx.start)
       case Dot => true
       case Bracketed(k) => ClassFine(k)
       case EndOfLine => alone && it.r == Once
       case OpenB => it.r == Once && ctx.nbra < NBRA
       case CloseB => it.r == Once && ctx.stack != []
       case Ref(d) =>
         1 <= d <= 9 && (it.r == Once || it.r == Star)
         && d - 1 in ctx.closed && d - 1 < |ctx.closed|
  }

  predicate ItemsFine(items: seq<Item>, ctx: Ctx, eof: byte) {
    if items == [] then ctx.stack == []
    else
      ItemFine(items[0], |items| == 1, ctx, eof)
      && ItemsFine(items[1..], After(items[0], ctx), eof)
  }

  /** Items as they can be written one after the other, whatever is left open behind them; `last` says that the
      delimiter or a newline comes next. */
  predicate ItemsWritten(items: seq<Item>, ctx: Ctx, eof: byte, last: bool) {
    items == []
    || (ItemFine(items[0], last && |items| == 1, ctx, eof)
        && ItemsWritten(items[1..], After(items[0], ctx), eof, last))
  }

  function CtxAfter(items: seq<Item>, ctx: Ctx): Ctx {
    if items == [] then ctx else CtxAfter(items[1..], After(items[0], ctx))
  }

  lemma {:induction false} FineWritten(items: seq<Item>, ctx: Ctx, eof: byte)
    ensures ItemsFine(items, ctx, eof) <==> ItemsWritten(items, ctx, eof, true) && CtxAfter(items, ctx).stack == []
    decreases |items|
  {
    hide ItemFine, After;
    if items != [] {
      FineWritten(items[1..], After(items[0], ctx), eof);
    }
  }

  /** The empty pattern stands for the previous one, and a leading `^` is the anchor. */
  predicate PatternFine(p: Pattern, eof: byte) {
    ItemsFine(p.items, CTX0, eof)
    && (if p.anchored then eof != CARET else p.items != [] && ShowUnit(p.items[0].u)[0] != CARET)
  }

  function OpsOf(items: seq<Item>, ctx: Ctx): seq<Op> {
    if items == [] then [] else [OpOf(items[0], ctx)] + OpsOf(items[1..], After(items[0], ctx))
  }

  /** The operators a pattern stands for. */
  function Ops(p: Pattern): seq<Op> {
    OpsOf(p.items, CTX0)
  }

  // ----- the numbering is sound

  lemma PlaceAppend(ops: seq<Op>, op: Op, x: Op)
    ensures Place(ops, x) < |ops| ==> Place(ops + [op], x) == Place(ops, x)
    ensures Place(ops, x) == |ops| ==> Place(ops + [op], x) == if x == op then |ops| else |ops| + 1
  {
    var all := ops + [op];
    var i, j := Place(all, x), Place(ops, x);
    assert all[|ops|] == op;
    assert forall n :: 0 <= n < |ops| ==> all[n] == ops[n];
    if j < |ops| {
      assert all[j] == x;
      assert i < |ops| ==> ops[i] == x;
    }
  }

  /** The brackets met in `ops` are those that `ctx` has counted. */
  ghost predicate Tracks(ops: seq<Op>, ctx: Ctx) {
    ctx.nbra <= NBRA
    && (forall k: byte :: Place(ops, Open(k)) < |ops| <==> k < ctx.nbra)
    && (forall k: byte :: Place(ops, Close(k)) < |ops| <==> k in ctx.closed)
    && (forall k: byte :: k in ctx.closed ==> k < ctx.nbra && Place(ops, Open(k)) < Place(ops, Close(k)))
    && (forall i :: 0 <= i < |ctx.stack| ==> ctx.stack[i] < ctx.nbra && ctx.stack[i] !in ctx.closed)
    && (forall i, j :: 0 <= i < j < |ctx.stack| ==> ctx.stack[i] != ctx.stack[j])
  }

  /** An operator that is fine stays fine when more operators follow. */
  lemma FineAppend(ops: seq<Op>, op: Op, i: nat)
    requires i < |ops| && OpFine(ops, i)
    ensures OpFine(ops + [op], i)
  {
    match ops[i]
    case Open(k) => PlaceAppend(ops, op, Open(k));
    case Close(k) => PlaceAppend(ops, op, Close(k));
    case Back(k) => PlaceAppend(ops, op, Open(k)); PlaceAppend(ops, op, Close(k));
    case BackMany(k) => PlaceAppend(ops, op, Open(k)); PlaceAppend(ops, op, Close(k));
    case _ =>
  }

  lemma {:induction false} MembersNoNul(prev: byte, rest: seq<ClassItem>)
    requires prev != NUL && forall i :: 0 <= i < |rest| ==> rest[i].c != NUL
    ensures NUL !in Members(prev, rest)
    decreases |rest|
  {
    if rest != [] {
      MembersNoNul(rest[0].c, rest[1..]);
    }
  }

  lemma RepeatFine(ops: seq<Op>, a: Atom, r: Rep)
    requires RepFine(r) && AtomFine(a)
    ensures OpFine(ops + [Repeat(a, r)], |ops|)
  {
  }

  lemma RefFine(ops: seq<Op>, k: byte, ctx: Ctx)
    requires Tracks(ops, ctx) && k in ctx.closed
    ensures OpFine(ops + [Back(k)], |ops|) && OpFine(ops + [BackMany(k)], |ops|)
  {
    assert k < ctx.nbra && Place(ops, Open(k)) < Place(ops, Close(k)) < |ops|;
    PlaceAppend(ops, Back(k), Open(k));
    PlaceAppend(ops, Back(k), Close(k));
    PlaceAppend(ops, BackMany(k), Open(k));
    PlaceAppend(ops, BackMany(k), Close(k));
  }

  lemma OpenFine(ops: seq<Op>, ctx: Ctx)
    requires Tracks(ops, ctx) && ctx.nbra < NBRA
    ensures OpFine(ops + [Open(ctx.nbra)], |ops|)
    ensures Tracks(ops + [Open(ctx.nbra)], Ctx(false, true, ctx.nbra + 1, ctx.stack + [ctx.nbra as byte], ctx.closed))
  {
    var op := Open(ctx.nbra);
    PlaceAppend(ops, op, op);
    forall k: byte
      ensures Place(ops + [op], Open(k)) < |ops| + 1 <==> k < ctx.nbra + 1
      ensures Place(ops + [op], Close(k)) < |ops| + 1 <==> k in ctx.closed
      ensures k in ctx.closed ==> Place(ops + [op], Open(k)) < Place(ops + [op], Close(k))
    {
      PlaceAppend(ops, op, Open(k));
      PlaceAppend(ops, op, Close(k));
    }
  }

  lemma CloseFine(ops: seq<Op>, ctx: Ctx, k: byte)
    requires Tracks(ops, ctx) && ctx.stack != [] && k == ctx.stack[|ctx.stack| - 1]
    ensures OpFine(ops + [Close(k)], |ops|)
    ensures Tracks(ops + [Close(k)],
                   Ctx(false, true, ctx.nbra, ctx.stack[..|ctx.stack| - 1], ctx.closed + {k}))
  {
    var op := Close(k);
    PlaceAppend(ops, op, op);
    forall j: byte
      ensures Place(ops + [op], Open(j)) < |ops| + 1 <==> j < ctx.nbra
      ensures Place(ops + [op], Close(j)) < |ops| + 1 <==> j in ctx.closed + {k}
      ensures j in ctx.closed + {k} ==> Place(ops + [op], Open(j)) < Place(ops + [op], Close(j))
    {
      PlaceAppend(ops, op, Open(j));
      PlaceAppend(ops, op, Close(j));
    }
  }

  lemma OtherTracks(ops: seq<Op>, op: Op, ctx: Ctx, next: Ctx)
    requires Tracks(ops, ctx) && !op.Open? && !op.Close?
    requires next.nbra == ctx.nbra && next.stack == ctx.stack && next.closed == ctx.closed
    ensures Tracks(ops + [op], next)
  {
    forall k: byte
      ensures Place(ops + [op], Open(k)) < |ops| + 1 <==> k < ctx.nbra
      ensures Place(ops + [op], Close(k)) < |ops| + 1 <==> k in ctx.closed
      ensures k in ctx.closed ==> Place(ops + [op], Open(k)) < Place(ops + [op], Close(k))
    {
      PlaceAppend(ops, op, Open(k));
      PlaceAppend(ops, op, Close(k));
    }
  }

  /** The operator for `it` is fine after `ops`, and the counts move on. */
  ghost predicate Carries(ops: seq<Op>, it: Item, ctx: Ctx) {
    OpFine(ops + [OpOf(it, ctx)], |ops|) && Tracks(ops + [OpOf(it, ctx)], After(it, ctx))
  }

  lemma AtomCarries(ops: seq<Op>, it: Item, alone: bool, ctx: Ctx, eof: byte, a: Atom)
    requires Tracks(ops, ctx) && ItemFine(it, alone, ctx, eof) && AtomFine(a)
    requires OpOf(it, ctx) == Repeat(a, it.r) && !it.u.OpenB? && !it.u.CloseB?
    ensures Carries(ops, it, ctx)
  {
    RepeatFine(ops, a, it.r);
    OtherTracks(ops, Repeat(a, it.r), ctx, After(it, ctx));
  }

  lemma RefCarries(ops: seq<Op>, it: Item, alone: bool, ctx: Ctx, eof: byte)
    requires Tracks(ops, ctx) && ItemFine(it, alone, ctx, eof) && (it.u.Ref? || it.u.EndOfLine?)
    ensures Carries(ops, it, ctx)
  {
    hide Place, ShowUnit, ShowRep, RepFine;
    if it.u.Ref? {
      RefFine(ops, it.u.d - 1, ctx);
    }
    OtherTracks(ops, OpOf(it, ctx), ctx, After(it, ctx));
  }

  lemma BracketCarries(ops: seq<Op>, it: Item, alone: bool, ctx: Ctx, eof: byte)
    requires Tracks(ops, ctx) && ItemFine(it, alone, ctx, eof) && (it.u.OpenB? || it.u.CloseB?)
    ensures Carries(ops, it, ctx)
  {
    if it.u.OpenB? {
      OpenFine(ops, ctx);
    } else {
      CloseFine(ops, ctx, ctx.stack[|ctx.stack| - 1]);
    }
  }

  /** The operator for a fine item is fine after operators that `ctx` tracks. */
  lemma ItemCarries(ops: seq<Op>, it: Item, alone: bool, ctx: Ctx, eof: byte)
    requires Tracks(ops, ctx) && ItemFine(it, alone, ctx, eof)
    ensures Carries(ops, it, ctx)
  {
    match it.u
    case Lit(c, _) => AtomCarries(ops, it, alone, ctx, eof, Chr(c));
    case Dot => AtomCarries(ops, it, alone, ctx, eof, Any);
    case Bracketed(k) =>
      MembersNoNul(k.first, k.rest);
      AtomCarries(ops, it, alone, ctx, eof, Cls(k));
    case EndOfLine => RefCarries(ops, it, alone, ctx, eof);
    case Ref(_) => RefCarries(ops, it, alone, ctx, eof);
    case OpenB => BracketCarries(ops, it, alone, ctx, eof);
    case CloseB => BracketCarries(ops, it, alone, ctx, eof);
  }

  lemma Regroup(x: seq<Op>, op: Op, y: seq<Op>)
    ensures x + ([op] + y) == x + [op] + y
  {
  }

  lemma FineNext(before: seq<Op>, op: Op)
    requires Fine(before) && OpFine(before + [op], |before|)
    ensures Fine(before + [op])
  {
    var next := before + [op];
    forall i | 0 <= i < |next|
      ensures OpFine(next, i)
    {
      if i < |before| {
        FineAppend(before, op, i);
      }
    }
  }

  lemma {:induction false} ItemsNumbered(before: seq<Op>, items: seq<Item>, ctx: Ctx, eof: byte)
    requires Fine(before) && Tracks(before, ctx) && ItemsFine(items, ctx, eof)
    ensures Fine(before + OpsOf(items, ctx))
    decreases |items|
  {
    if items == [] {
      assert before + [] == before;
    } else {
      var op, ctx' := OpOf(items[0], ctx), After(items[0], ctx);
      ItemCarries(before, items[0], |items| == 1, ctx, eof);
      FineNext(before, op);
      ItemsNumbered(before + [op], items[1..], ctx', eof);
      Regroup(before, op, OpsOf(items[1..], ctx'));
    }
  }

  /** A well-formed pattern stands for operators with brackets numbered soundly. */
  lemma PatternNumbered(p: Pattern, eof: byte)
    requires PatternFine(p, eof)
    ensures Fine(Ops(p))
  {
    ItemsNumbered([], p.items, CTX0, eof);
    assert [] + Ops(p) == Ops(p);
  }
}
