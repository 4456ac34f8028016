/** Text that is not a pattern: what `compile` refuses, and with which error. */
module RegexErrors {
  import opened Bytes
  import opened RegexMeaning
  import opened RegexCode
  import opened RegexSyntax
  import opened RegexCompile
  import opened RegexRoundTrip

  // ----- intervals, whatever is written

  predicate AllDigits(m: seq<byte>) {
    forall i :: 0 <= i < |m| ==> DIGIT0 <= m[i] <= DIGIT9
  }

  predicate NoDigit(c: byte) {
    !(DIGIT0 <= c <= DIGIT9)
  }

  /** A number as an `int` holds it. */
  function Number32(m: seq<byte>): int {
    Int32(Value(m))
  }

  function Accumulated(i: int, m: seq<byte>): int
    decreases |m|
  {
    if m == [] then i else Accumulated(Int32(10 * i + m[0] - DIGIT0), m[1..])
  }

  lemma IntWraps(x: int, k: int)
    ensures Int32(x + k * 0x1_0000_0000) == Int32(x)
  {
    var b, n := 0x1_0000_0000, x + 0x8000_0000;
    var q := n / b;
    Remainder(n + k * b, q + k, n % b);
  }

  lemma Remainder(n: int, q: int, r: int)
    requires n == 0x1_0000_0000 * q + r && 0 <= r < 0x1_0000_0000
    ensures n % 0x1_0000_0000 == r
  {
  }

  lemma IntStep(x: int, d: int)
    ensures Int32(10 * Int32(x) + d) == Int32(10 * x + d)
  {
    var k := (x + 0x8000_0000) / 0x1_0000_0000;
    assert Int32(x) == x - k * 0x1_0000_0000;
    IntWraps(10 * x + d, -10 * k);
  }

  lemma {:induction false} AccumulatedLast(i: int, m: seq<byte>)
    requires m != []
    ensures var n := |m| - 1; Accumulated(i, m) == Int32(10 * Accumulated(i, m[..n]) + m[n] - DIGIT0)
    decreases |m|
  {
    hide Int32;
    if |m| == 1 {
      assert m[1..] == [] && m[..0] == [];
    } else {
      var n, i' := |m| - 1, Int32(10 * i + m[0] - DIGIT0);
      AccumulatedLast(i', m[1..]);
      assert m[1..][..n - 1] == m[..n][1..];
    }
  }

  lemma {:induction false} AccumulatedIs(m: seq<byte>)
    ensures Accumulated(0, m) == Number32(m)
    decreases |m|
  {
    if m != [] {
      var n := |m| - 1;
      AccumulatedIs(m[..n]);
      AccumulatedLast(0, m);
      IntStep(Value(m[..n]), m[n] - DIGIT0);
      hide Int32;
    }
  }

  /** A run of digits and the character that ends it. */
  lemma {:induction false} DigitRun(pat: seq<byte>, sp: nat, m: seq<byte>, c: byte, i: int)
    requires AllDigits(m) && NoDigit(c) && Has(pat, sp, m + [c])
    ensures Digits(pat, sp, i)
         == if m != [] && (c == BACKSLASH || c == COMMA) then Got((Accumulated(i, m), c), sp + |m| + 1) else Bad(16)
    decreases |m|
  {
    hide Int32;
    if m == [] {
      HasSame(pat, sp, m + [c], [c]);
      HasOne(pat, sp, c);
    } else {
      HasSame(pat, sp, m + [c], [m[0]] + (m[1..] + [c]));
      HasHere(pat, sp, m[0], m[1..] + [c]);
      DigitRun(pat, sp + 1, m[1..], c, Int32(10 * i + m[0] - DIGIT0));
      assert pat[sp + 1 + 0] == (m[1..] + [c])[0];
    }
  }

  lemma NumberRun(pat: seq<byte>, sp: nat, m: seq<byte>, c: byte)
    requires AllDigits(m) && NoDigit(c) && Has(pat, sp, m + [c])
    ensures Digits(pat, sp, 0)
         == if m != [] && (c == BACKSLASH || c == COMMA) then Got((Number32(m), c), sp + |m| + 1) else Bad(16)
  {
    hide Int32, Number32;
    DigitRun(pat, sp, m, c, 0);
    AccumulatedIs(m);
  }

  /** What follows `\{`, whatever it is: digits up to some other character c, and the character d behind it; or, when
      that other character is a comma, digits once more up to c, and d. */
  datatype Bounds =
    | OneNumber(m: seq<byte>, c: byte, d: byte)
    | TwoNumbersAt(m: seq<byte>, n: seq<byte>, c: byte, d: byte)

  predicate BoundsRead(b: Bounds) {
    match b
    case OneNumber(m, c, d) => AllDigits(m) && NoDigit(c) && c != COMMA
    case TwoNumbersAt(m, n, c, d) => AllDigits(m) && AllDigits(n) && NoDigit(c)
  }

  function BoundsText(b: Bounds): seq<byte> {
    match b
    case OneNumber(m, c, d) => (m + [c]) + [d]
    case TwoNumbersAt(m, n, c, d) => (m + [COMMA]) + ((n + [c]) + [d])
  }

  /** Not a number, too big a number, no closing `\}`, a third number, numbers in the wrong order; 0 if it is fine. */
  function BoundsError(b: Bounds): nat {
    match b
    case OneNumber(m, c, d) =>
      if m == [] || c != BACKSLASH then 16
      else if Number32(m) >= 255 then 11
      else if d != RBRACE then 45
      else 0
    case TwoNumbersAt(m, n, c, d) =>
      if m == [] then 16
      else if Number32(m) >= 255 then 11
      else if n == [] && c == BACKSLASH then (if d != RBRACE then 45 else 0)
      else if n == [] || (c != BACKSLASH && c != COMMA) then 16
      else if Number32(n) >= 255 then 11
      else if c == COMMA then 44
      else if d != RBRACE then 45
      else if Number32(n) % 256 < Number32(m) % 256 then 46
      else 0
  }

  /** The two bytes of an interval that is accepted. */
  function BoundsBytes(b: Bounds): (byte, byte) {
    match b
    case OneNumber(m, c, d) => (Number32(m) % 256, Number32(m) % 256)
    case TwoNumbersAt(m, n, c, d) => (Number32(m) % 256, if n == [] then 255 else Number32(n) % 256)
  }

  /** Each interval as it is written, right or wrong: the error it gives, or its two bytes. */
  lemma BoundsShown(pat: seq<byte>, sp: nat, b: Bounds)
    requires BoundsRead(b) && Has(pat, sp, BoundsText(b))
    ensures IntervalAt(pat, sp)
         == if BoundsError(b) != 0 then Bad(BoundsError(b)) else Got(BoundsBytes(b), sp + |BoundsText(b)|)
  {
    hide Number32, Digits;
    match b
    case OneNumber(m, c, d) =>
      HasSplit(pat, sp, m + [c], [d]);
      NumberRun(pat, sp, m, c);
      HasOne(pat, sp + |m| + 1, d);
    case TwoNumbersAt(m, n, c, d) =>
      HasSplit(pat, sp, m + [COMMA], (n + [c]) + [d]);
      NumberRun(pat, sp, m, COMMA);
      var sp1 := sp + |m| + 1;
      HasSplit(pat, sp1, n + [c], [d]);
      NumberRun(pat, sp1, n, c);
      HasOne(pat, sp1 + |n| + 1, d);
      HasFirst(pat, sp1, n, c);
  }

  lemma HasFirst(pat: seq<byte>, sp: nat, n: seq<byte>, c: byte)
    requires Has(pat, sp, n + [c])
    ensures Get(pat, sp) == if n == [] then c else n[0]
  {
    assert pat[sp + 0] == (n + [c])[0];
  }

  // ----- classes that are not closed

  /** A class broken off: the sign of negation, the first character, more of them, and what breaks it off. */
  function BrokenText(neg: bool, first: seq<byte>, rest: seq<ClassItem>, c: byte): seq<byte> {
    (if neg then [CARET] else []) + (first + (ShowClassItems(rest) + [c]))
  }

  lemma {:induction false} RestBroken(pat: seq<byte>, sp: nat, rest: seq<ClassItem>, c: byte, lc: byte, s: set<byte>,
                                      size: nat, room: int)
    requires (size == 16 || size == 32) && lc != NUL && Below(s, 8 * size) && room > 32 && (size == 16 ==> lc < 128)
    requires (c == NUL || c == NEWLINE) && forall i :: 0 <= i < |rest| ==> ClassItemFine(rest[i])
    requires Has(pat, sp, ShowClassItems(rest) + [c])
    ensures Continue(pat, sp, lc, MapOf(s, size), room) == Bad(49)
    decreases |rest|
  {
    hide MapOf;
    if rest == [] {
      HasSame(pat, sp, ShowClassItems(rest) + [c], [c]);
      HasOne(pat, sp, c);
    } else {
      hide Continue, ShowClassItems;
      var i := rest[0];
      assert ClassItemFine(i);
      ItemsStep(rest, c);
      ClassItemStep(pat, sp, i, ShowClassItems(rest[1..]) + [c], lc, s, size, room);
      RestBroken(pat, sp + |ItemText(i)|, rest[1..], c, i.c, s + ItemSet(lc, i), Grown(size, i.c), room);
    }
  }

  lemma ItemsStep(rest: seq<ClassItem>, c: byte)
    requires rest != []
    ensures ShowClassItems(rest) + [c] == ItemText(rest[0]) + (ShowClassItems(rest[1..]) + [c])
  {
  }

  /** A class that NUL or a newline comes into before it is closed. */
  lemma ClassBroken(pat: seq<byte>, sp: nat, neg: bool, first: seq<byte>, rest: seq<ClassItem>, c: byte, room: int)
    requires room > 32 && (c == NUL || c == NEWLINE) && |first| <= 1 && (first == [] ==> rest == [])
    requires first != [] ==> ClassFine(Class(neg, first[0], rest, false))
    requires Has(pat, sp, BrokenText(neg, first, rest, c))
    ensures ClassAt(pat, sp, room) == Bad(49)
  {
    var body := first + (ShowClassItems(rest) + [c]);
    var sp1 := if neg then sp + 1 else sp;
    HasSplit(pat, sp, if neg then [CARET] else [], body);
    if neg {
      HasHere(pat, sp, CARET, body);
    }
    if first == [] {
      HasSame(pat, sp1, body, [c]);
      HasOne(pat, sp1, c);
    } else {
      HasSame(pat, sp1, body, [first[0]] + (ShowClassItems(rest) + [c]));
      HasHere(pat, sp1, first[0], ShowClassItems(rest) + [c]);
      BodyBroken(pat, sp1 + 1, first[0], rest, c, room);
    }
  }

  lemma BodyBroken(pat: seq<byte>, sp: nat, first: byte, rest: seq<ClassItem>, c: byte, room: int)
    requires room > 32 && (c == NUL || c == NEWLINE) && first != NUL && first != NEWLINE
    requires forall i :: 0 <= i < |rest| ==> ClassItemFine(rest[i])
    requires sp > 0 && Get(pat, sp - 1) == first && Has(pat, sp, ShowClassItems(rest) + [c])
    ensures ClassLoop(pat, sp, first, NUL, seq(16, i => 0), room) == Bad(49)
  {
    EmptyMap();
    var n := Grown(16, first);
    WidenMapOf({}, 16, first);
    PlaceInMap({}, n, first);
    assert {} + {first} == {first};
    assert ClassTurn(pat, sp, first, NUL, MapOf({}, 16), room) == ClassNext(pat, sp, first, MapOf({first}, n));
    RestBroken(pat, sp, rest, c, first, {first}, n, room);
  }

  // ----- faults

  /** What can be wrong behind items that are well written. */
  datatype Fault =
    | LeftOpen(t: byte)
    | NothingOpen
    | TooMany
    | NoSuch(d: byte)
    | LineEnds
    | EscapedEnd
    | WrongBounds(b: Bounds)
    | BrokenClass(neg: bool, first: seq<byte>, rest: seq<ClassItem>, c: byte)

  function FaultText(f: Fault): seq<byte> {
    match f
    case LeftOpen(t) => [t]
    case NothingOpen => [BACKSLASH, RPAREN]
    case TooMany => [BACKSLASH, LPAREN]
    case NoSuch(d) => [BACKSLASH, if d < 208 then DIGIT0 + d else DIGIT0]
    case LineEnds => [NEWLINE]
    case EscapedEnd => [BACKSLASH, NEWLINE]
    case WrongBounds(b) => [BACKSLASH, LBRACE] + BoundsText(b)
    case BrokenClass(neg, first, rest, c) => [LBRACKET] + BrokenText(neg, first, rest, c)
  }

  /** It is wrong where it stands: a bracket is open at the end; none is to close; nine have been opened; fewer than d
      have been closed; a newline for sed, or escaped; an interval, with something before it, that is an error; or a
      class broken off. */
  predicate IsFault(f: Fault, ctx: Ctx, eof: byte, sed: bool) {
    match f
    case LeftOpen(t) => ctx.stack != [] && (t == eof || (t == NEWLINE && !sed))
    case NothingOpen => ctx.stack == [] && eof != BACKSLASH
    case TooMany => ctx.nbra == 9 && eof != BACKSLASH
    case NoSuch(d) => 1 <= d <= 9 && |ctx.closed| < d && eof != BACKSLASH
    case LineEnds => sed && eof != NEWLINE
    case EscapedEnd => eof != BACKSLASH
    case WrongBounds(b) => BoundsRead(b) && BoundsError(b) != 0 && !ctx.start && eof != BACKSLASH
    case BrokenClass(neg, first, rest, c) =>
      (c == NUL || c == NEWLINE) && |first| <= 1 && (first == [] ==> rest == []) && eof != LBRACKET
      && (first != [] ==> ClassFine(Class(neg, first[0], rest, false)))
  }

  function ErrorOf(f: Fault): nat {
    match f
    case LeftOpen(_) => 42
    case NothingOpen => 42
    case TooMany => 43
    case NoSuch(_) => 25
    case LineEnds => 36
    case EscapedEnd => 36
    case WrongBounds(b) => BoundsError(b)
    case BrokenClass(_, _, _, _) => 49
  }

  /** The room that the fault needs to be come upon. */
  function RoomFor(f: Fault): int {
    if f.BrokenClass? then 34 else 1
  }

  lemma FaultTurn(pat: seq<byte>, sp: nat, eof: byte, sed: bool, room: int, s: Comp, ctx: Ctx, f: Fault)
    requires Rel(s, ctx) && IsFault(f, ctx, eof, sed) && Has(pat, sp, FaultText(f)) && |s.code| + RoomFor(f) <= room
    ensures Loop(pat, sp, eof, sed, room, s) == Fail(ErrorOf(f))
  {
    match f
    case LeftOpen(t) => HasOne(pat, sp, t);
    case NothingOpen => HasTwo(pat, sp, BACKSLASH, RPAREN);
    case TooMany => HasTwo(pat, sp, BACKSLASH, LPAREN);
    case NoSuch(d) => HasTwo(pat, sp, BACKSLASH, DIGIT0 + d);
    case LineEnds => HasOne(pat, sp, NEWLINE);
    case EscapedEnd => HasTwo(pat, sp, BACKSLASH, NEWLINE);
    case WrongBounds(b) => WrongTurn(pat, sp, eof, sed, room, s, b);
    case BrokenClass(neg, first, rest, c) => BrokenTurn(pat, sp, eof, sed, room, s, neg, first, rest, c);
  }

  lemma WrongTurn(pat: seq<byte>, sp: nat, eof: byte, sed: bool, room: int, s: Comp, b: Bounds)
    requires Sound(s) && s.last != -1 && BoundsRead(b) && BoundsError(b) != 0 && eof != BACKSLASH && |s.code| < room
    requires Has(pat, sp, [BACKSLASH, LBRACE] + BoundsText(b))
    ensures Loop(pat, sp, eof, sed, room, s) == Fail(BoundsError(b))
  {
    hide BoundsRead, BoundsError, BoundsText, IntervalAt;
    HasSplit(pat, sp, [BACKSLASH, LBRACE], BoundsText(b));
    HasTwo(pat, sp, BACKSLASH, LBRACE);
    BoundsShown(pat, sp + 2, b);
  }

  lemma BrokenTurn(pat: seq<byte>, sp: nat, eof: byte, sed: bool, room: int, s: Comp, neg: bool, first: seq<byte>,
                   rest: seq<ClassItem>, c: byte)
    requires Sound(s) && (c == NUL || c == NEWLINE) && |first| <= 1 && (first == [] ==> rest == []) && eof != LBRACKET
    requires first != [] ==> ClassFine(Class(neg, first[0], rest, false))
    requires |s.code| + 34 <= room && Has(pat, sp, [LBRACKET] + BrokenText(neg, first, rest, c))
    ensures Loop(pat, sp, eof, sed, room, s) == Fail(49)
  {
    hide BrokenText, ClassAt, ClassFine;
    HasHere(pat, sp, LBRACKET, BrokenText(neg, first, rest, c));
    ClassBroken(pat, sp + 1, neg, first, rest, c, room - |s.code| - 1);
  }

  /** The text is no request for the previous pattern, and begins with `^` exactly when the pattern is anchored. */
  predicate Begins(pat: seq<byte>, anchored: bool, eof: byte) {
    Get(pat, 0) != eof && Get(pat, 0) != NEWLINE && (Get(pat, 0) == CARET <==> anchored)
  }

  /** A text that has, behind well-written items, something wrong is refused with the error for it, provided that the
      buffer has room for the code up to there. */
  lemma Refused(anchored: bool, items: seq<Item>, f: Fault, eof: byte, sed: bool, room: int, previous: bool,
                pat: seq<byte>)
    requires Begins(pat, anchored, eof) && Has(pat, if anchored then 1 else 0, ShowItems(items) + FaultText(f))
    requires ItemsWritten(items, CTX0, eof, f.LeftOpen? || f.LineEnds?) && IsFault(f, CtxAfter(items, CTX0), eof, sed)
    requires |EncAll(OpsOf(items, CTX0))| + RoomFor(f) <= room
    ensures CompileOf(pat, eof, sed, room, previous) == Failed(ErrorOf(f))
  {
    hide Loop, Turn, ItemFine, ShowItems, EncAll, FaultText, IsFault, ErrorOf, RoomFor, CtxAfter, ItemsWritten;
    var sp := if anchored then 1 else 0;
    var s := Comp([], -1, [], 0, 0);
    FaultBehind(f, CtxAfter(items, CTX0), eof, sed);
    var s' := PrefixShown(pat, sp, eof, sed, room, s, items, CTX0, FaultText(f), f.LeftOpen? || f.LineEnds?);
    assert [] + EncAll(OpsOf(items, CTX0)) == EncAll(OpsOf(items, CTX0));
    HasSplit(pat, sp, ShowItems(items), FaultText(f));
    FaultTurn(pat, sp + |ShowItems(items)|, eof, sed, room, s', CtxAfter(items, CTX0), f);
  }

  lemma FaultBehind(f: Fault, ctx: Ctx, eof: byte, sed: bool)
    requires IsFault(f, ctx, eof, sed)
    ensures Behind(FaultText(f), eof, f.LeftOpen? || f.LineEnds?)
  {
  }

  /** A text that is empty stands for the previous pattern; where there is none it is refused, but for sed. */
  lemma EmptyText(eof: byte, sed: bool, room: int, previous: bool, pat: seq<byte>)
    requires Get(pat, 0) == eof || Get(pat, 0) == NEWLINE
    ensures CompileOf(pat, eof, sed, room, previous) == Failed(41) <==> !previous && !sed
    ensures previous || sed ==> CompileOf(pat, eof, sed, room, previous).Reused?
  {
    hide Loop;
  }
}
