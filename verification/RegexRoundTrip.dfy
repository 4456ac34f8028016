/** Compiling the text of a pattern gives the code of the operators the pattern stands for. */
module RegexRoundTrip {
  import opened Bytes
  import opened RegexMeaning
  import opened RegexCode
  import opened RegexSyntax
  import opened RegexCompile

  lemma HasHere(pat: seq<byte>, sp: nat, x: byte, rest: seq<byte>)
    requires Has(pat, sp, [x] + rest)
    ensures Get(pat, sp) == x && Has(pat, sp + 1, rest)
  {
    HasSplit(pat, sp, [x], rest);
    assert pat[sp + 0] == [x][0];
  }

  lemma HasSame(pat: seq<byte>, sp: nat, x: seq<byte>, y: seq<byte>)
    requires Has(pat, sp, x) && x == y
    ensures Has(pat, sp, y)
  {
  }

  // ----- classes: maps follow sets

  ghost predicate Below(s: set<byte>, n: nat) {
    forall c :: c in s ==> c < n
  }

  lemma PlaceInMap(s: set<byte>, size: nat, c: byte)
    requires size <= 32 && c < 8 * size
    ensures PlaceIn(MapOf(s, size), c) == MapOf(s + {c}, size)
  {
    var m := PlaceIn(MapOf(s, size), c);
    forall x: byte | x < 8 * size
      ensures BitOn(m[x / 8], x % 8) == (x in s + {c})
    {
      MapBit(s, size, x);
      if x / 8 == c / 8 {
        SetBitOfBits(MapOf(s, size)[c / 8], c % 8, x % 8);
        assert x == 8 * (x / 8) + x % 8 && c == 8 * (c / 8) + c % 8;
      }
    }
    MapIs(m, s + {c});
  }

  lemma {:induction false} PlaceRangeMap(s: set<byte>, size: nat, lc: byte, c: byte)
    requires size <= 32 && c < 8 * size
    ensures PlaceIn(PlaceUpTo(MapOf(s, size), lc, c), c) == MapOf(s + {c} + Span(lc, c), size)
    decreases 256 - lc
  {
    if lc < c {
      PlaceInMap(s, size, lc);
      PlaceRangeMap(s + {lc}, size, lc + 1, c);
      assert s + {lc} + {c} + Span(lc + 1, c) == s + {c} + Span(lc, c);
    } else {
      PlaceInMap(s, size, c);
      assert s + {c} == s + {c} + Span(lc, c);
    }
  }

  lemma WidenEmpty(s: set<byte>, n: nat)
    requires n < 32 && Below(s, 8 * n)
    ensures ByteFrom(s, n, 8) == 0
  {
    forall j | 0 <= j < 8
      ensures BitOn(ByteFrom(s, n, 8), j) == BitOn(0, j)
    {
      ByteFromBit(s, n, 8, j);
      NoBit(j);
    }
    SameBytes(ByteFrom(s, n, 8), 0);
  }

  function Grown(size: nat, c: byte): nat {
    if c >= 128 then 32 else size
  }

  lemma WidenMapOf(s: set<byte>, size: nat, c: byte)
    requires (size == 16 || size == 32) && Below(s, 8 * size)
    ensures Widen(MapOf(s, size), c) == MapOf(s, Grown(size, c))
  {
    if c >= 128 && size == 16 {
      forall n | 16 <= n < 32
        ensures MapOf(s, 32)[n] == 0
      {
        WidenEmpty(s, n);
      }
      assert MapOf(s, 16) + seq(16, i => 0) == MapOf(s, 32);
    }
  }

  lemma EmptyMap()
    ensures seq(16, i => 0) == MapOf({}, 16)
  {
    forall n | 0 <= n < 16
      ensures MapOf({}, 16)[n] == 0
    {
      WidenEmpty({}, n);
    }
  }

  /** The rest of the character loop, from its test on. */
  function Continue(pat: seq<byte>, sp: nat, lc: byte, map_: seq<byte>, room: int): Scanned<seq<byte>>
    requires |map_| == 16 || |map_| == 32
  {
    match ClassNext(pat, sp, lc, map_)
    case ClassBad(e) => Bad(e)
    case ClassDone(m, sp1) => Got(m, sp1)
    case ClassGo(m, sp1, c1, lc1) => ClassLoop(pat, sp1, c1, lc1, m, room)
  }

  function SizeAfter(size: nat, rest: seq<ClassItem>): nat {
    if size == 32 || exists i :: 0 <= i < |rest| && rest[i].c >= 128 then 32 else size
  }

  function ClassTail(rest: seq<ClassItem>, dash: bool): seq<byte> {
    ShowClassItems(rest) + (if dash then [MINUS] else []) + [RBRACKET]
  }

  /** What the loop makes of the characters it has yet to read. */
  ghost function ClassResult(sp: nat, lc: byte, s: set<byte>, size: nat, rest: seq<ClassItem>, dash: bool,
                             room: int): Scanned<seq<byte>>
    requires size == 16 || size == 32
  {
    if SizeAfter(size, rest) != size && room <= 32 then Bad(50)
    else
      Got(MapOf(s + Members(lc, rest) + (if dash then {MINUS} else {}), SizeAfter(size, rest)),
          sp + |ClassTail(rest, dash)|)
  }

  lemma ClassEnd(pat: seq<byte>, sp: nat, dash: bool, lc: byte, s: set<byte>, size: nat, room: int)
    requires (size == 16 || size == 32) && lc != NUL
    requires Has(pat, sp, ClassTail([], dash))
    ensures Continue(pat, sp, lc, MapOf(s, size), room) == ClassResult(sp, lc, s, size, [], dash, room)
  {
    if dash {
      HasSame(pat, sp, ClassTail([], dash), [MINUS] + [RBRACKET]);
      HasHere(pat, sp, MINUS, [RBRACKET]);
      HasSame(pat, sp + 1, [RBRACKET], [RBRACKET] + []);
      HasHere(pat, sp + 1, RBRACKET, []);
      PlaceInMap(s, size, MINUS);
      assert s + Members(lc, []) + {MINUS} == s + {MINUS};
    } else {
      HasSame(pat, sp, ClassTail([], dash), [RBRACKET] + []);
      HasHere(pat, sp, RBRACKET, []);
      assert s + Members(lc, []) + {} == s;
    }
  }

  /** The characters an item adds, after `lc`. */
  function ItemSet(lc: byte, i: ClassItem): set<byte> {
    match i case Single(c) => {c} case To(c) => {c} + Span(lc, c)
  }

  function ItemText(i: ClassItem): seq<byte> {
    match i case Single(c) => [c] case To(c) => [MINUS, c]
  }

  /** One more item read. */
  lemma SingleStep(pat: seq<byte>, sp: nat, i: ClassItem, tail: seq<byte>, lc: byte, s: set<byte>, size: nat,
                   room: int)
    requires (size == 16 || size == 32) && lc != NUL && Below(s, 8 * size) && i.Single?
    requires ClassItemFine(i) && Has(pat, sp, ItemText(i) + tail)
    ensures Has(pat, sp + |ItemText(i)|, tail)
    ensures Continue(pat, sp, lc, MapOf(s, size), room)
            == if Grown(size, i.c) != size && room <= 32 then Bad(50)
               else Continue(pat, sp + |ItemText(i)|, i.c, MapOf(s + ItemSet(lc, i), Grown(size, i.c)), room)
  {
    hide MapOf, PlaceUpTo, PlaceIn;
    HasHere(pat, sp, i.c, tail);
    WidenMapOf(s, size, i.c);
    PlaceInMap(s, Grown(size, i.c), i.c);
  }

  lemma ToStep(pat: seq<byte>, sp: nat, i: ClassItem, tail: seq<byte>, lc: byte, s: set<byte>, size: nat,
               room: int)
    requires (size == 16 || size == 32) && lc != NUL && Below(s, 8 * size) && i.To?
    requires ClassItemFine(i) && Has(pat, sp, ItemText(i) + tail)
    ensures Has(pat, sp + |ItemText(i)|, tail)
    ensures Continue(pat, sp, lc, MapOf(s, size), room)
            == if Grown(size, i.c) != size && room <= 32 then Bad(50)
               else Continue(pat, sp + |ItemText(i)|, i.c, MapOf(s + ItemSet(lc, i), Grown(size, i.c)), room)
  {
    hide MapOf, PlaceUpTo, PlaceIn, Widen;
    var c := i.c;
    HasSame(pat, sp, ItemText(i) + tail, [MINUS] + ([c] + tail));
    HasHere(pat, sp, MINUS, [c] + tail);
    HasHere(pat, sp + 1, c, tail);
    RangeStep(pat, sp + 1, c, lc, s, size, room);
    assert s + ItemSet(lc, i) == s + {c} + Span(lc, c);
  }

  lemma ClassItemStep(pat: seq<byte>, sp: nat, i: ClassItem, tail: seq<byte>, lc: byte, s: set<byte>, size: nat,
                      room: int)
    requires (size == 16 || size == 32) && lc != NUL && Below(s, 8 * size)
    requires ClassItemFine(i) && Has(pat, sp, ItemText(i) + tail)
    ensures Has(pat, sp + |ItemText(i)|, tail)
    ensures Continue(pat, sp, lc, MapOf(s, size), room)
            == if Grown(size, i.c) != size && room <= 32 then Bad(50)
               else Continue(pat, sp + |ItemText(i)|, i.c, MapOf(s + ItemSet(lc, i), Grown(size, i.c)), room)
  {
    hide Continue, MapOf, ItemSet;
    if i.Single? {
      SingleStep(pat, sp, i, tail, lc, s, size, room);
    } else {
      ToStep(pat, sp, i, tail, lc, s, size, room);
    }
  }

  lemma RangeStep(pat: seq<byte>, sp: nat, c: byte, lc: byte, s: set<byte>, size: nat, room: int)
    requires (size == 16 || size == 32) && lc != NUL && Below(s, 8 * size)
    requires c == Get(pat, sp) && c != RBRACKET && sp > 0
    ensures ClassTurn(pat, sp, MINUS, lc, MapOf(s, size), room)
            == if Grown(size, c) != size && room <= 32 then ClassBad(50)
               else ClassNext(pat, sp + 1, c, MapOf(s + {c} + Span(lc, c), Grown(size, c)))
  {
    WidenMapOf(s, size, MINUS);
    WidenMapOf(s, size, c);
    PlaceRangeMap(s, Grown(size, c), lc, c);
  }

  lemma {:induction false} ClassShown(pat: seq<byte>, sp: nat, rest: seq<ClassItem>, dash: bool, lc: byte,
                                      s: set<byte>, size: nat, room: int)
    requires (size == 16 || size == 32) && lc != NUL && Below(s, 8 * size) && (size == 16 ==> lc < 128)
    requires forall i :: 0 <= i < |rest| ==> ClassItemFine(rest[i])
    requires Has(pat, sp, ClassTail(rest, dash))
    ensures Continue(pat, sp, lc, MapOf(s, size), room) == ClassResult(sp, lc, s, size, rest, dash, room)
    decreases |rest|
  {
    hide Continue, ClassTail, ShowClassItems, MapOf;
    if rest == [] {
      ClassEnd(pat, sp, dash, lc, s, size, room);
    } else {
      var i, more := rest[0], rest[1..];
      var n := Grown(size, i.c);
      assert ClassItemFine(i);
      TailStep(rest, dash);
      ClassItemStep(pat, sp, i, ClassTail(more, dash), lc, s, size, room);
      SizeStep(size, rest);
      if !(n != size && room <= 32) {
        ClassShown(pat, sp + |ItemText(i)|, more, dash, i.c, s + ItemSet(lc, i), n, room);
        ResultStep(sp, lc, s, size, rest, dash, room);
      }
    }
  }

  lemma TailStep(rest: seq<ClassItem>, dash: bool)
    requires rest != []
    ensures ClassTail(rest, dash) == ItemText(rest[0]) + ClassTail(rest[1..], dash)
  {
    var d := if dash then [MINUS] else [];
    assert ItemText(rest[0]) + ShowClassItems(rest[1..]) + d + [RBRACKET]
        == ItemText(rest[0]) + (ShowClassItems(rest[1..]) + d + [RBRACKET]);
  }

  lemma SizeStep(size: nat, rest: seq<ClassItem>)
    requires (size == 16 || size == 32) && rest != []
    ensures SizeAfter(size, rest) == SizeAfter(Grown(size, rest[0].c), rest[1..])
  {
    assert forall i :: 0 <= i < |rest| - 1 ==> rest[1..][i] == rest[i + 1];
    if i :| 0 <= i < |rest| && rest[i].c >= 128 {
      assert i > 0 ==> rest[1..][i - 1].c >= 128;
    }
  }

  lemma ResultStep(sp: nat, lc: byte, s: set<byte>, size: nat, rest: seq<ClassItem>, dash: bool, room: int)
    requires (size == 16 || size == 32) && rest != []
    requires Grown(size, rest[0].c) == size || room > 32
    ensures ClassResult(sp, lc, s, size, rest, dash, room)
            == ClassResult(sp + |ItemText(rest[0])|, rest[0].c, s + ItemSet(lc, rest[0]), Grown(size, rest[0].c),
                           rest[1..], dash, room)
  {
    SizeStep(size, rest);
    var d: set<byte> := if dash then {MINUS} else {};
    assert s + Members(lc, rest) + d == s + ItemSet(lc, rest[0]) + Members(rest[0].c, rest[1..]) + d;
  }

  lemma NegateNarrow(s: set<byte>)
    ensures Negate(MapOf(s, 16)) == [NCCL] + MapOf(s + {NUL}, 16)
  {
    PlaceInMap(s, 16, NUL);
  }

  lemma NegateWide(s: set<byte>)
    ensures Negate(MapOf(s, 32)) == [CXCL] + MapOf(Span(1, 255) - s, 32)
  {
    var inv := seq(32, i requires 0 <= i < 32 => Invert(MapOf(s, 32)[i]));
    var m := inv[0 := ClearLow(inv[0])];
    forall x: byte | x < 8 * 32
      ensures BitOn(m[x / 8], x % 8) == (x in Span(1, 255) - s)
    {
      MapBit(s, 32, x);
      InvertBit(MapOf(s, 32)[x / 8], x % 8);
      ClearLowBits(inv[0], x % 8);
      assert x / 8 == 0 && x % 8 == 0 <==> x == 0;
    }
    MapIs(m, Span(1, 255) - s);
  }

  function ClassText(k: Class): seq<byte> {
    (if k.neg then [CARET] else []) + ([k.first] + ClassTail(k.rest, k.dash))
  }

  /** From the first character of the class on, the sign of negation read. */
  lemma ClassBody(pat: seq<byte>, sp: nat, k: Class, room: int)
    requires ClassFine(k) && sp > 0 && Get(pat, sp - 1) == k.first && Has(pat, sp, ClassTail(k.rest, k.dash))
    ensures ClassLoop(pat, sp, k.first, NUL, seq(16, i => 0), room)
            == if Wide(k) && room <= 32 then Bad(50)
               else Got(MapOf(Listed(k), MapSize(k)), sp + |ClassTail(k.rest, k.dash)|)
  {
    EmptyMap();
    var n := Grown(16, k.first);
    WidenMapOf({}, 16, k.first);
    PlaceInMap({}, n, k.first);
    assert {} + {k.first} == {k.first};
    assert SizeAfter(n, k.rest) == MapSize(k);
    if !(k.first >= 128 && room <= 32) {
      assert ClassTurn(pat, sp, k.first, NUL, MapOf({}, 16), room) == ClassNext(pat, sp, k.first, MapOf({k.first}, n));
      ClassShown(pat, sp, k.rest, k.dash, k.first, {k.first}, n, room);
    }
  }

  lemma ClassAtShown(pat: seq<byte>, sp: nat, k: Class, room: int)
    requires ClassFine(k) && Has(pat, sp, ClassText(k))
    ensures ClassAt(pat, sp, room)
            == if Wide(k) && room <= 32 then Bad(50) else Got(Enc(One(Cls(k))), sp + |ClassText(k)|)
  {
    var body := [k.first] + ClassTail(k.rest, k.dash);
    var sp1 := if k.neg then sp + 1 else sp;
    HasSplit(pat, sp, if k.neg then [CARET] else [], body);
    if k.neg {
      HasHere(pat, sp, CARET, body);
    }
    HasHere(pat, sp1, k.first, ClassTail(k.rest, k.dash));
    ClassBody(pat, sp1 + 1, k, room);
    NegateNarrow(Listed(k));
    NegateWide(Listed(k));
    EncClass(k);
  }

  lemma EncClass(k: Class)
    ensures Enc(One(Cls(k))) == [AtomOp(Cls(k))] + MapOf(MapSet(k), MapSize(k))
  {
    assert Enc(One(Cls(k))) == [AtomOp(Cls(k)) + 0] + AtomArg(Cls(k)) + [];
  }

  // ----- intervals

  lemma {:induction false} ValueGrows(digits: seq<byte>, n: nat)
    requires n <= |digits| && forall i :: 0 <= i < |digits| ==> IsDigit(digits[i])
    ensures 0 <= Value(digits[..n]) <= Value(digits)
    decreases |digits| - n
  {
    if n == |digits| {
      assert digits[..n] == digits;
      ValuePositive(digits);
    } else {
      ValueGrows(digits, n + 1);
      assert digits[..n + 1][..n] == digits[..n];
      ValuePositive(digits[..n]);
    }
  }

  lemma {:induction false} ValuePositive(digits: seq<byte>)
    requires forall i :: 0 <= i < |digits| ==> IsDigit(digits[i])
    ensures Value(digits) >= 0
  {
    if digits != [] {
      ValuePositive(digits[..|digits| - 1]);
    }
  }

  lemma NextDigit(pat: seq<byte>, sp: nat, m: seq<byte>, n: nat, end: byte)
    requires n < |m| && Has(pat, sp, m[n..] + [end])
    ensures Get(pat, sp) == m[n] && Get(pat, sp + 1) == (if n + 1 < |m| then m[n + 1] else end)
    ensures Has(pat, sp + 1, m[n + 1..] + [end])
  {
    var rest := m[n + 1..] + [end];
    HasSame(pat, sp, m[n..] + [end], [m[n]] + rest);
    HasHere(pat, sp, m[n], rest);
    assert pat[sp + 1 + 0] == rest[0];
  }

  lemma ValueStep(m: seq<byte>, n: nat)
    requires Number(m) && n < |m|
    ensures Value(m[..n + 1]) == 10 * Value(m[..n]) + (m[n] - DIGIT0)
    ensures 0 <= Value(m[..n]) < 255 && 0 <= Value(m[..n + 1]) < 255
    ensures IsDigit(m[n])
  {
    ValueGrows(m, n);
    ValueGrows(m, n + 1);
    assert m[..n + 1][..n] == m[..n];
  }

  /** The digit loop reads a number below 255 as its value. */
  lemma {:induction false} DigitsShown(pat: seq<byte>, sp: nat, m: seq<byte>, n: nat, end: byte)
    requires Number(m) && n < |m| && (end == BACKSLASH || end == COMMA)
    requires Has(pat, sp, m[n..] + [end])
    ensures Digits(pat, sp, Value(m[..n])) == Got((Value(m), end), sp + |m| - n + 1)
    decreases |m| - n
  {
    hide Value, Number, Has;
    NextDigit(pat, sp, m, n, end);
    ValueStep(m, n);
    if n + 1 == |m| {
      assert m[..n + 1] == m;
    } else {
      ValueStep(m, n + 1);
      DigitsShown(pat, sp + 1, m, n + 1, end);
    }
  }

  lemma DigitsWhole(pat: seq<byte>, sp: nat, m: seq<byte>, end: byte)
    requires Number(m) && (end == BACKSLASH || end == COMMA) && Has(pat, sp, m + [end])
    ensures Digits(pat, sp, 0) == Got((Value(m), end), sp + |m| + 1)
  {
    HasSame(pat, sp, m + [end], m[0..] + [end]);
    assert m[..0] == [];
    DigitsShown(pat, sp, m, 0, end);
  }

  lemma NumberThen(pat: seq<byte>, sp: nat, m: seq<byte>, end: byte, rest: seq<byte>)
    requires Number(m) && (end == BACKSLASH || end == COMMA) && Has(pat, sp, m + [end] + rest)
    ensures Digits(pat, sp, 0) == Got((Value(m), end), sp + |m| + 1) && Has(pat, sp + |m| + 1, rest)
  {
    HasSplit(pat, sp, m + [end], rest);
    DigitsWhole(pat, sp, m, end);
  }

  lemma HasOne(pat: seq<byte>, sp: nat, x: byte)
    requires Has(pat, sp, [x])
    ensures Get(pat, sp) == x
  {
    assert pat[sp + 0] == [x][0];
  }

  lemma HasTwo(pat: seq<byte>, sp: nat, x: byte, y: byte)
    requires Has(pat, sp, [x, y])
    ensures Get(pat, sp) == x && Get(pat, sp + 1) == y
  {
    assert pat[sp + 0] == [x, y][0] && pat[sp + 1] == [x, y][1];
  }

  function IntervalBytes(r: Rep): (byte, byte)
    requires RepFine(r) && !r.Once? && !r.Star?
  {
    match r
    case Exactly(m) => (Value(m), Value(m))
    case AtLeast(m) => (Value(m), OPEN_END)
    case Range(m, n) => (Value(m), Value(n))
  }

  lemma ExactlyShown(pat: seq<byte>, sp: nat, m: seq<byte>)
    requires Number(m) && Has(pat, sp, m + [BACKSLASH] + [RBRACE])
    ensures IntervalAt(pat, sp) == Got((Value(m), Value(m)), sp + |m| + 2)
  {
    hide Value, Digits;
    NumberThen(pat, sp, m, BACKSLASH, [RBRACE]);
    HasOne(pat, sp + |m| + 1, RBRACE);
  }

  lemma AtLeastShown(pat: seq<byte>, sp: nat, m: seq<byte>)
    requires Number(m) && Has(pat, sp, m + [COMMA] + [BACKSLASH, RBRACE])
    ensures IntervalAt(pat, sp) == Got((Value(m), OPEN_END), sp + |m| + 3)
  {
    hide Value, Digits;
    NumberThen(pat, sp, m, COMMA, [BACKSLASH, RBRACE]);
    HasTwo(pat, sp + |m| + 1, BACKSLASH, RBRACE);
  }

  lemma TwoNumbers(pat: seq<byte>, sp: nat, i: int, sp1: nat, j: int, sp2: nat)
    requires Digits(pat, sp, 0) == Got((i, COMMA), sp1) && IsDigit(Get(pat, sp1))
    requires Digits(pat, sp1, 0) == Got((j, BACKSLASH), sp2) && Get(pat, sp2) == RBRACE
    requires 0 <= i <= j < 255
    ensures IntervalAt(pat, sp) == Got((i, j), sp2 + 1)
  {
  }

  lemma SecondNumber(pat: seq<byte>, sp: nat, n: seq<byte>)
    requires Number(n) && Has(pat, sp, n + [BACKSLASH] + [RBRACE])
    ensures Digits(pat, sp, 0) == Got((Value(n), BACKSLASH), sp + |n| + 1)
    ensures IsDigit(Get(pat, sp)) && Get(pat, sp + |n| + 1) == RBRACE
  {
    NumberThen(pat, sp, n, BACKSLASH, [RBRACE]);
    HasOne(pat, sp + |n| + 1, RBRACE);
    assert pat[sp + 0] == (n + [BACKSLASH] + [RBRACE])[0] == n[0];
  }

  lemma RangeScans(pat: seq<byte>, sp: nat, m: seq<byte>, n: seq<byte>, tail: seq<byte>, sp1: nat, sp2: nat)
    requires Number(m) && Number(n) && tail == n + [BACKSLASH] + [RBRACE] && Has(pat, sp, m + [COMMA] + tail)
    requires sp1 == sp + |m| + 1 && sp2 == sp1 + |n| + 1 && Value(m) <= Value(n)
    ensures IntervalAt(pat, sp) == Got((Value(m), Value(n)), sp2 + 1)
  {
    NumberThen(pat, sp, m, COMMA, tail);
    SecondNumber(pat, sp1, n);
    TwoNumbers(pat, sp, Value(m), sp1, Value(n), sp2);
  }

  lemma RangeShown(pat: seq<byte>, sp: nat, m: seq<byte>, n: seq<byte>)
    requires Number(m) && Number(n) && Value(m) <= Value(n)
    requires Has(pat, sp, m + [COMMA] + (n + [BACKSLASH] + [RBRACE]))
    ensures IntervalAt(pat, sp) == Got((Value(m), Value(n)), sp + |m| + |n| + 3)
  {
    RangeScans(pat, sp, m, n, n + [BACKSLASH] + [RBRACE], sp + |m| + 1, sp + |m| + |n| + 2);
  }

  lemma IntervalShown(pat: seq<byte>, sp: nat, r: Rep)
    requires RepFine(r) && !r.Once? && !r.Star? && Has(pat, sp, ShowBounds(r))
    ensures IntervalAt(pat, sp) == Got(IntervalBytes(r), sp + |ShowBounds(r)|)
  {
    match r
    case Exactly(m) => ExactlyShown(pat, sp, m);
    case AtLeast(m) => AtLeastShown(pat, sp, m);
    case Range(m, n) => RangeShown(pat, sp, m, n);
  }

  // ----- items

  /** The compiler's variables after the items that `ctx` has counted. */
  ghost predicate Rel(s: Comp, ctx: Ctx) {
    Sound(s) && (s.last == -1 <==> ctx.start)
    && (s.last >= 0 ==> ((s.code[s.last] == CBRA || s.code[s.last] == CKET) <==> ctx.afterBracket))
    && s.stack == ctx.stack && s.nbra == ctx.nbra && s.closed == |ctx.closed|
    && (forall i :: 0 <= i < |ctx.stack| ==> ctx.stack[i] < ctx.nbra && ctx.stack[i] !in ctx.closed)
    && (forall i, j :: 0 <= i < j < |ctx.stack| ==> ctx.stack[i] != ctx.stack[j])
    && (forall k :: k in ctx.closed ==> k < ctx.nbra)
  }

  /** The operator of an item without its repetition. */
  function UnitOp(it: Item, ctx: Ctx): Op {
    OpOf(Item(it.u, Once), ctx)
  }

  /** The variables after an item whose instruction is e. */
  function Next(s: Comp, e: seq<byte>, it: Item, ctx: Ctx): Comp {
    Comp(s.code + e, |s.code|, After(it, ctx).stack, After(it, ctx).nbra, |After(it, ctx).closed|)
  }

  lemma LitTurn(pat: seq<byte>, sp: nat, eof: byte, sed: bool, room: int, s: Comp, it: Item, alone: bool, ctx: Ctx)
    requires Rel(s, ctx) && ItemFine(it, alone, ctx, eof) && it.u.Lit? && !it.u.escaped
    requires Has(pat, sp, ShowUnit(it.u))
    requires it.u.c == DOLLAR ==> Get(pat, sp + 1) != eof && Get(pat, sp + 1) != NEWLINE
    ensures Turn(pat, sp, eof, sed, room, s)
            == if |s.code| >= room then Fail(50) else Go(Next(s, Enc(UnitOp(it, ctx)), it, ctx), sp + 1)
  {
    HasOne(pat, sp, it.u.c);
    EncChr(it.u.c);
  }

  lemma EncChr(c: byte)
    ensures Enc(One(Chr(c))) == [CCHR, c]
  {
  }

  lemma EscapedTurn(pat: seq<byte>, sp: nat, eof: byte, sed: bool, room: int, s: Comp, it: Item, alone: bool, ctx: Ctx)
    requires Rel(s, ctx) && ItemFine(it, alone, ctx, eof) && it.u.Lit? && it.u.escaped
    requires Has(pat, sp, ShowUnit(it.u))
    ensures Turn(pat, sp, eof, sed, room, s)
            == if |s.code| >= room then Fail(50) else Go(Next(s, Enc(UnitOp(it, ctx)), it, ctx), sp + 2)
  {
    HasTwo(pat, sp, BACKSLASH, if it.u.c == NEWLINE then LOWERN else it.u.c);
    EncChr(it.u.c);
  }

  lemma PlainTurn(pat: seq<byte>, sp: nat, eof: byte, sed: bool, room: int, s: Comp, it: Item, alone: bool, ctx: Ctx)
    requires Rel(s, ctx) && ItemFine(it, alone, ctx, eof) && (it.u.Dot? || it.u.EndOfLine?)
    requires Has(pat, sp, ShowUnit(it.u))
    requires it.u.EndOfLine? ==> Get(pat, sp + 1) == eof || Get(pat, sp + 1) == NEWLINE
    ensures Turn(pat, sp, eof, sed, room, s)
            == if |s.code| >= room then Fail(50) else Go(Next(s, Enc(UnitOp(it, ctx)), it, ctx), sp + 1)
  {
    HasOne(pat, sp, ShowUnit(it.u)[0]);
    assert Enc(One(Any)) == [CDOT];
  }

  lemma BracketTurn(pat: seq<byte>, sp: nat, eof: byte, sed: bool, room: int, s: Comp, wide: bool, bytes: seq<byte>,
                    sp1: nat)
    requires Sound(s) && Get(pat, sp) == LBRACKET && eof != LBRACKET && |bytes| == if wide then 33 else 17
    requires ClassAt(pat, sp + 1, room - |s.code| - 1)
             == if wide && room - |s.code| - 1 <= 32 then Bad(50) else Got(bytes, sp1)
    ensures Turn(pat, sp, eof, sed, room, s)
            == if |s.code| + |bytes| >= room then Fail(50) else Go(Emit(s, bytes), sp1)
  {
  }

  lemma ClassTurns(pat: seq<byte>, sp: nat, eof: byte, sed: bool, room: int, s: Comp, k: Class, text: seq<byte>,
                   bytes: seq<byte>)
    requires Sound(s) && ClassFine(k) && eof != LBRACKET && text == ClassText(k) && bytes == Enc(One(Cls(k)))
    requires Has(pat, sp, [LBRACKET] + text)
    ensures Turn(pat, sp, eof, sed, room, s)
            == if |s.code| + |bytes| >= room then Fail(50) else Go(Emit(s, bytes), sp + 1 + |text|)
  {
    HasHere(pat, sp, LBRACKET, text);
    ClassAtShown(pat, sp + 1, k, room - |s.code| - 1);
    EncClass(k);
    BracketTurn(pat, sp, eof, sed, room, s, Wide(k), bytes, sp + 1 + |text|);
  }

  lemma ClassTextIs(k: Class)
    ensures ShowUnit(Bracketed(k)) == [LBRACKET] + ClassText(k)
  {
    var neg := if k.neg then [CARET] else [];
    var dash := if k.dash then [MINUS] else [];
    var items := ShowClassItems(k.rest);
    assert [LBRACKET] + neg + [k.first] + items + dash + [RBRACKET]
        == [LBRACKET] + (neg + ([k.first] + (items + dash + [RBRACKET])));
  }

  lemma OpenTurn(pat: seq<byte>, sp: nat, eof: byte, sed: bool, room: int, s: Comp, it: Item, alone: bool, ctx: Ctx)
    requires Rel(s, ctx) && ItemFine(it, alone, ctx, eof) && it.u.OpenB?
    requires Has(pat, sp, ShowUnit(it.u))
    ensures Turn(pat, sp, eof, sed, room, s)
            == if |s.code| >= room then Fail(50) else Go(Next(s, Enc(UnitOp(it, ctx)), it, ctx), sp + 2)
    ensures |s.code| < room ==> Rel(Next(s, Enc(UnitOp(it, ctx)), it, ctx), After(it, ctx))
  {
    HasTwo(pat, sp, BACKSLASH, LPAREN);
  }

  lemma CloseTurn(pat: seq<byte>, sp: nat, eof: byte, sed: bool, room: int, s: Comp, it: Item, alone: bool, ctx: Ctx)
    requires Rel(s, ctx) && ItemFine(it, alone, ctx, eof) && it.u.CloseB?
    requires Has(pat, sp, ShowUnit(it.u))
    ensures Turn(pat, sp, eof, sed, room, s)
            == if |s.code| >= room then Fail(50) else Go(Next(s, Enc(UnitOp(it, ctx)), it, ctx), sp + 2)
    ensures |s.code| < room ==> Rel(Next(s, Enc(UnitOp(it, ctx)), it, ctx), After(it, ctx))
  {
    HasTwo(pat, sp, BACKSLASH, RPAREN);
  }

  lemma RefTurn(pat: seq<byte>, sp: nat, eof: byte, sed: bool, room: int, s: Comp, it: Item, alone: bool, ctx: Ctx)
    requires Rel(s, ctx) && ItemFine(it, alone, ctx, eof) && it.u.Ref?
    requires Has(pat, sp, ShowUnit(it.u))
    ensures Turn(pat, sp, eof, sed, room, s)
            == if |s.code| >= room then Fail(50) else Go(Next(s, Enc(UnitOp(it, ctx)), it, ctx), sp + 2)
  {
    HasTwo(pat, sp, BACKSLASH, DIGIT0 + it.u.d);
  }

  /** A unit's `$` is the end of the line exactly when the delimiter or a newline follows. */
  ghost predicate PeekFine(pat: seq<byte>, sp: nat, u: Unit, eof: byte) {
    (u == Lit(DOLLAR, false) ==> Get(pat, sp + 1) != eof && Get(pat, sp + 1) != NEWLINE)
    && (u.EndOfLine? ==> Get(pat, sp + 1) == eof || Get(pat, sp + 1) == NEWLINE)
  }

  predicate OutOfRoom(s: Comp, u: Unit, e: seq<byte>, room: int) {
    if u.Bracketed? then |s.code| + |e| >= room else |s.code| >= room
  }

  lemma UnitTurn(pat: seq<byte>, sp: nat, eof: byte, sed: bool, room: int, s: Comp, it: Item, alone: bool, ctx: Ctx)
    requires Rel(s, ctx) && ItemFine(it, alone, ctx, eof)
    requires Has(pat, sp, ShowUnit(it.u)) && PeekFine(pat, sp, it.u, eof)
    ensures Turn(pat, sp, eof, sed, room, s)
            == if OutOfRoom(s, it.u, Enc(UnitOp(it, ctx)), room) then Fail(50)
               else Go(Next(s, Enc(UnitOp(it, ctx)), it, ctx), sp + |ShowUnit(it.u)|)
  {
    match it.u
    case Lit(_, false) => LitTurn(pat, sp, eof, sed, room, s, it, alone, ctx);
    case Lit(_, true) => EscapedTurn(pat, sp, eof, sed, room, s, it, alone, ctx);
    case Dot => PlainTurn(pat, sp, eof, sed, room, s, it, alone, ctx);
    case EndOfLine => PlainTurn(pat, sp, eof, sed, room, s, it, alone, ctx);
    case OpenB => OpenTurn(pat, sp, eof, sed, room, s, it, alone, ctx);
    case CloseB => CloseTurn(pat, sp, eof, sed, room, s, it, alone, ctx);
    case Ref(_) => RefTurn(pat, sp, eof, sed, room, s, it, alone, ctx);
    case Bracketed(k) =>
      ClassTextIs(k);
      ClassTurns(pat, sp, eof, sed, room, s, k, ClassText(k), Enc(One(Cls(k))));
  }

  /** The variables after an item match the context after it, whatever the item's repetition. */
  lemma NextRel(s: Comp, e: seq<byte>, it: Item, alone: bool, ctx: Ctx, eof: byte)
    requires Rel(s, ctx) && ItemFine(it, alone, ctx, eof) && e != []
    requires (e[0] == CBRA || e[0] == CKET) <==> (it.u.OpenB? || it.u.CloseB?)
    ensures Rel(Next(s, e, it, ctx), After(it, ctx))
  {
  }

  lemma OpcodeOf(it: Item, alone: bool, ctx: Ctx, eof: byte)
    requires ItemFine(it, alone, ctx, eof)
    ensures Enc(OpOf(it, ctx)) != [] && Enc(UnitOp(it, ctx)) != []
    ensures (Enc(OpOf(it, ctx))[0] == CBRA || Enc(OpOf(it, ctx))[0] == CKET) <==> (it.u.OpenB? || it.u.CloseB?)
    ensures (Enc(UnitOp(it, ctx))[0] == CBRA || Enc(UnitOp(it, ctx))[0] == CKET) <==> (it.u.OpenB? || it.u.CloseB?)
  {
  }

  lemma StarTurn(pat: seq<byte>, sp: nat, eof: byte, sed: bool, room: int, s: Comp)
    requires Sound(s) && s.last >= 0 && s.code[s.last] != CBRA && s.code[s.last] != CKET
    requires Get(pat, sp) == ASTERISK && eof != ASTERISK
    ensures Turn(pat, sp, eof, sed, room, s)
            == if |s.code| >= room then Fail(50)
               else Go(s.(code := s.code[s.last := OrStar(s.code[s.last])]), sp + 1)
  {
  }

  lemma BoundsTurn(pat: seq<byte>, sp: nat, eof: byte, sed: bool, room: int, s: Comp, r: Rep, text: seq<byte>)
    requires Sound(s) && s.last >= 0 && eof != BACKSLASH && RepFine(r) && !r.Once? && !r.Star?
    requires text == ShowBounds(r) && Has(pat, sp, [BACKSLASH, LBRACE] + text)
    ensures Turn(pat, sp, eof, sed, room, s)
            == if |s.code| >= room then Fail(50)
               else Go(s.(code := s.code[s.last := OrRnge(s.code[s.last])] + [IntervalBytes(r).0, IntervalBytes(r).1]),
                       sp + 2 + |text|)
  {
    HasSplit(pat, sp, [BACKSLASH, LBRACE], text);
    HasTwo(pat, sp, BACKSLASH, LBRACE);
    IntervalShown(pat, sp + 2, r);
  }

  // ----- how a repetition changes an instruction

  lemma OrKinds(b: byte)
    requires b % 4 == 0 && b < 200
    ensures OrStar(b) == b + STAR && OrRnge(b) == b + RNGE
  {
    assert SetBitOf(b, 0) == b + 1;
    assert SetBitOf(b + 1, 1) == 2 * SetBitOf((b + 1) / 2, 0) + (b + 1) % 2;
  }

  lemma HeadChanged(code: seq<byte>, x: byte, y: byte, arg: seq<byte>)
    ensures (code + ([x] + arg))[|code|] == x
    ensures (code + ([x] + arg))[|code| := y] == code + ([y] + arg)
  {
  }

  lemma EncRepeats(a: Atom)
    ensures Enc(One(a)) == [AtomOp(a)] + AtomArg(a) && Enc(Many(a)) == [AtomOp(a) + STAR] + AtomArg(a)
  {
  }

  lemma AtomOpShape(a: Atom)
    ensures AtomOp(a) % 4 == 0 && AtomOp(a) < 200
  {
  }

  lemma EncBetween(a: Atom, lo: byte, hi: byte)
    ensures AtomOp(a) + RNGE < 256 && Enc(Between(a, lo, hi)) == [AtomOp(a) + RNGE] + AtomArg(a) + [lo, hi]
  {
  }

  lemma ManyCode(code: seq<byte>, a: Atom)
    ensures var c := code + Enc(One(a)); c[|code| := OrStar(c[|code|])] == code + Enc(Many(a))
  {
    EncRepeats(a);
    AtomOpShape(a);
    hide AtomOp, AtomArg, Enc;
    OrKinds(AtomOp(a));
    HeadChanged(code, AtomOp(a), AtomOp(a) + STAR, AtomArg(a));
  }

  lemma BetweenCode(code: seq<byte>, a: Atom, lo: byte, hi: byte)
    ensures var c := code + Enc(One(a));
            c[|code| := OrRnge(c[|code|])] + [lo, hi] == code + Enc(Between(a, lo, hi))
  {
    EncBetween(a, lo, hi);
    EncRepeats(a);
    AtomOpShape(a);
    hide AtomOp, AtomArg, Enc;
    OrKinds(AtomOp(a));
    HeadChanged(code, AtomOp(a), AtomOp(a) + RNGE, AtomArg(a));
    assert code + ([AtomOp(a) + RNGE] + AtomArg(a)) + [lo, hi] == code + ([AtomOp(a) + RNGE] + AtomArg(a) + [lo, hi]);
  }

  lemma BackCode(code: seq<byte>, k: byte)
    ensures var c := code + Enc(Back(k)); c[|code| := OrStar(c[|code|])] == code + Enc(BackMany(k))
  {
    OrKinds(CBACK);
  }

  // ----- the loop, item by item

  lemma LoopFull(pat: seq<byte>, sp: nat, eof: byte, sed: bool, room: int, s: Comp)
    requires Sound(s) && |s.code| >= room
    ensures Loop(pat, sp, eof, sed, room, s) == Fail(50)
  {
  }

  /** The repetition after a unit whose instruction stands at the end of the code. */
  lemma RepTurn(pat: seq<byte>, sp: nat, eof: byte, sed: bool, room: int, s: Comp, it: Item, alone: bool, ctx: Ctx)
    requires Rel(s, ctx) && ItemFine(it, alone, ctx, eof) && it.r != Once && Has(pat, sp, ShowRep(it.r))
    requires Sound(Next(s, Enc(UnitOp(it, ctx)), it, ctx))
    ensures var u := Next(s, Enc(UnitOp(it, ctx)), it, ctx);
            Turn(pat, sp, eof, sed, room, u)
            == if |u.code| >= room then Fail(50)
               else Go(Next(s, Enc(OpOf(it, ctx)), it, ctx), sp + |ShowRep(it.r)|)
  {
    var u := Next(s, Enc(UnitOp(it, ctx)), it, ctx);
    OpcodeOf(it, alone, ctx, eof);
    assert u.code[u.last] == Enc(UnitOp(it, ctx))[0];
    if it.r.Star? {
      HasOne(pat, sp, ASTERISK);
      StarTurn(pat, sp, eof, sed, room, u);
      StarCode(s.code, it, alone, ctx, eof);
    } else {
      BoundsTurn(pat, sp, eof, sed, room, u, it.r, ShowBounds(it.r));
      BoundsCode(s.code, it, alone, ctx, eof);
    }
  }

  lemma StarCode(code: seq<byte>, it: Item, alone: bool, ctx: Ctx, eof: byte)
    requires ItemFine(it, alone, ctx, eof) && it.r.Star? && Enc(UnitOp(it, ctx)) != []
    ensures var c := code + Enc(UnitOp(it, ctx));
            c[|code| := OrStar(c[|code|])] == code + Enc(OpOf(it, ctx))
  {
    match it.u
    case Lit(c, _) => ManyCode(code, Chr(c));
    case Dot => ManyCode(code, Any);
    case Bracketed(k) => ManyCode(code, Cls(k));
    case Ref(d) => BackCode(code, d - 1);
  }

  lemma BoundsCode(code: seq<byte>, it: Item, alone: bool, ctx: Ctx, eof: byte)
    requires ItemFine(it, alone, ctx, eof) && !it.r.Star? && !it.r.Once? && Enc(UnitOp(it, ctx)) != []
    ensures var c := code + Enc(UnitOp(it, ctx));
            var b := IntervalBytes(it.r);
            c[|code| := OrRnge(c[|code|])] + [b.0, b.1] == code + Enc(OpOf(it, ctx))
  {
    var b := IntervalBytes(it.r);
    match it.u
    case Lit(c, _) => BetweenCode(code, Chr(c), b.0, b.1);
    case Dot => BetweenCode(code, Any, b.0, b.1);
    case Bracketed(k) => BetweenCode(code, Cls(k), b.0, b.1);
  }

  /** One item: the loop goes on from after it, or has run out of room by its end. */
  lemma ItemTurns(pat: seq<byte>, sp: nat, eof: byte, sed: bool, room: int, s: Comp, it: Item, alone: bool, ctx: Ctx,
                  sp1: nat, sp2: nat, next: Comp)
    requires Rel(s, ctx) && ItemFine(it, alone, ctx, eof) && PeekFine(pat, sp, it.u, eof)
    requires Has(pat, sp, ShowUnit(it.u)) && sp1 == sp + |ShowUnit(it.u)|
    requires Has(pat, sp1, ShowRep(it.r)) && sp2 == sp1 + |ShowRep(it.r)|
    requires next == Next(s, Enc(OpOf(it, ctx)), it, ctx)
    ensures Rel(next, After(it, ctx))
    ensures |next.code| < room ==> Loop(pat, sp, eof, sed, room, s) == Loop(pat, sp2, eof, sed, room, next)
    ensures |next.code| >= room ==> Loop(pat, sp, eof, sed, room, s) == Fail(50)
  {
    var u := Next(s, Enc(UnitOp(it, ctx)), it, ctx);
    UnitTurn(pat, sp, eof, sed, room, s, it, alone, ctx);
    OpcodeOf(it, alone, ctx, eof);
    NextRel(s, Enc(UnitOp(it, ctx)), it, alone, ctx, eof);
    NextRel(s, Enc(OpOf(it, ctx)), it, alone, ctx, eof);
    if it.r == Once {
      OnceTurns(pat, sp, eof, sed, room, s, it, ctx, sp1, u);
    } else {
      RepTurn(pat, sp1, eof, sed, room, s, it, alone, ctx);
      LongerCode(s.code, it, alone, ctx, eof);
      RepTurns(pat, sp, eof, sed, room, s, it, ctx, sp1, sp2, u, next);
    }
  }

  lemma LongerCode(code: seq<byte>, it: Item, alone: bool, ctx: Ctx, eof: byte)
    requires ItemFine(it, alone, ctx, eof) && it.r != Once && Enc(UnitOp(it, ctx)) != []
    ensures |code + Enc(UnitOp(it, ctx))| <= |code + Enc(OpOf(it, ctx))|
  {
    if it.r.Star? {
      StarCode(code, it, alone, ctx, eof);
    } else {
      BoundsCode(code, it, alone, ctx, eof);
    }
  }

  lemma OnceTurns(pat: seq<byte>, sp: nat, eof: byte, sed: bool, room: int, s: Comp, it: Item, ctx: Ctx, sp1: nat,
                  u: Comp)
    requires Sound(s) && Sound(u) && RepFine(it.r) && u == Next(s, Enc(UnitOp(it, ctx)), it, ctx)
    requires Turn(pat, sp, eof, sed, room, s)
             == if OutOfRoom(s, it.u, Enc(UnitOp(it, ctx)), room) then Fail(50) else Go(u, sp1)
    ensures |u.code| < room ==> Loop(pat, sp, eof, sed, room, s) == Loop(pat, sp1, eof, sed, room, u)
    ensures |u.code| >= room ==> Loop(pat, sp, eof, sed, room, s) == Fail(50)
  {
    if |u.code| >= room {
      LoopFull(pat, sp1, eof, sed, room, u);
    }
  }

  lemma RepTurns(pat: seq<byte>, sp: nat, eof: byte, sed: bool, room: int, s: Comp, it: Item, ctx: Ctx,
                 sp1: nat, sp2: nat, u: Comp, next: Comp)
    requires Sound(s) && Sound(u) && Sound(next) && RepFine(it.r)
    requires u == Next(s, Enc(UnitOp(it, ctx)), it, ctx) && |u.code| <= |next.code|
    requires Turn(pat, sp, eof, sed, room, s)
             == if OutOfRoom(s, it.u, Enc(UnitOp(it, ctx)), room) then Fail(50) else Go(u, sp1)
    requires Turn(pat, sp1, eof, sed, room, u) == if |u.code| >= room then Fail(50) else Go(next, sp2)
    ensures |next.code| < room ==> Loop(pat, sp, eof, sed, room, s) == Loop(pat, sp2, eof, sed, room, next)
    ensures |next.code| >= room ==> Loop(pat, sp, eof, sed, room, s) == Fail(50)
  {
    if |next.code| >= room {
      LoopFull(pat, sp2, eof, sed, room, next);
    }
  }

  lemma UnitStart(it: Item, alone: bool, ctx: Ctx, eof: byte)
    requires ItemFine(it, alone, ctx, eof)
    ensures ShowUnit(it.u) != [] && ShowUnit(it.u)[0] != eof && ShowUnit(it.u)[0] != NEWLINE
    ensures it.u == Lit(DOLLAR, false) || it.u.EndOfLine? ==> |ShowUnit(it.u)| == 1
    ensures it.u == Lit(DOLLAR, false) ==> !alone || it.r != Once
    ensures it.u.EndOfLine? ==> alone && it.r == Once
    ensures it.r != Once ==> ShowRep(it.r) != [] && ShowRep(it.r)[0] != eof && ShowRep(it.r)[0] != NEWLINE
  {
  }

  lemma Reassociate(a: seq<byte>, b: seq<byte>, c: seq<byte>, d: seq<byte>)
    ensures a + b + c + d == a + (b + (c + d))
  {
  }

  lemma SplitThree(pat: seq<byte>, sp: nat, u: seq<byte>, r: seq<byte>, rest: seq<byte>, t: seq<byte>)
    requires Has(pat, sp, u + r + rest + t)
    ensures Has(pat, sp, u) && Has(pat, sp + |u|, r) && Has(pat, sp + |u| + |r|, rest + t)
  {
    Reassociate(u, r, rest, t);
    HasSplit(pat, sp, u, r + (rest + t));
    HasSplit(pat, sp + |u|, r, rest + t);
  }

  lemma SplitItems(pat: seq<byte>, sp: nat, items: seq<Item>, t: seq<byte>)
    requires items != [] && Has(pat, sp, ShowItems(items) + t)
    ensures var u, r := ShowUnit(items[0].u), ShowRep(items[0].r);
            Has(pat, sp, u) && Has(pat, sp + |u|, r)
            && Has(pat, sp + |u| + |r|, ShowItems(items[1..]) + t)
  {
    hide ShowUnit, ShowRep;
    SplitThree(pat, sp, ShowUnit(items[0].u), ShowRep(items[0].r), ShowItems(items[1..]), t);
  }

  /** What stands behind the items: the delimiter or a newline if they are the last. */
  predicate Behind(t: seq<byte>, eof: byte, last: bool) {
    t != [] && (last <==> t[0] == eof || t[0] == NEWLINE)
  }

  lemma Peek(pat: seq<byte>, sp: nat, items: seq<Item>, ctx: Ctx, eof: byte, t: seq<byte>, last: bool)
    requires items != [] && ItemsWritten(items, ctx, eof, last) && Behind(t, eof, last)
    requires Has(pat, sp, ShowItems(items) + t)
    ensures PeekFine(pat, sp, items[0].u, eof)
  {
    hide ShowUnit, ShowRep, ItemFine;
    var it := items[0];
    SplitItems(pat, sp, items, t);
    UnitStart(it, last && |items| == 1, ctx, eof);
    if it.r != Once {
      AfterUnit(pat, sp, it);
    } else if |items| > 1 {
      UnitStart(items[1], last && |items| == 2, After(it, ctx), eof);
      hide ShowUnit, ShowRep, ItemFine, After;
      SplitItems(pat, sp + |ShowUnit(it.u)| + |ShowRep(it.r)|, items[1..], t);
      AfterItem(pat, sp, it, items[1]);
    } else {
      LastItem(pat, sp, items, t);
    }
  }

  /** The character after a one-character unit, in the three places it can come from. */
  lemma AfterUnit(pat: seq<byte>, sp: nat, it: Item)
    requires Has(pat, sp + |ShowUnit(it.u)|, ShowRep(it.r)) && ShowRep(it.r) != []
    ensures |ShowUnit(it.u)| == 1 ==> Get(pat, sp + 1) == ShowRep(it.r)[0]
  {
    hide ShowUnit, ShowRep;
    assert |ShowUnit(it.u)| == 1 ==> pat[sp + 1 + 0] == ShowRep(it.r)[0];
  }

  lemma AfterItem(pat: seq<byte>, sp: nat, it: Item, next: Item)
    requires Has(pat, sp + |ShowUnit(it.u)| + |ShowRep(it.r)|, ShowUnit(next.u)) && ShowUnit(next.u) != []
    requires it.r == Once
    ensures |ShowUnit(it.u)| == 1 ==> Get(pat, sp + 1) == ShowUnit(next.u)[0]
  {
    hide ShowUnit;
    assert |ShowUnit(it.u)| == 1 ==> pat[sp + 1 + 0] == ShowUnit(next.u)[0];
  }

  lemma LastItem(pat: seq<byte>, sp: nat, items: seq<Item>, t: seq<byte>)
    requires |items| == 1 && items[0].r == Once && t != []
    requires Has(pat, sp + |ShowUnit(items[0].u)| + |ShowRep(items[0].r)|, ShowItems(items[1..]) + t)
    ensures |ShowUnit(items[0].u)| == 1 ==> Get(pat, sp + 1) == t[0]
  {
    hide ShowUnit;
    assert items[1..] == [];
    assert ShowItems(items[1..]) + t == t;
    assert |ShowUnit(items[0].u)| == 1 ==> pat[sp + 1 + 0] == t[0];
  }

  function Opened(items: seq<Item>): nat {
    if items == [] then 0 else (if items[0].u.OpenB? then 1 else 0) + Opened(items[1..])
  }

  /** How the loop ends after `code`, with the delimiter t at `end`. */
  function LoopEnds(code: seq<byte>, end: nat, t: byte, eof: byte, room: int, nbra: nat): Turned {
    if |code| >= room then Fail(50)
    else Stop(code + [CCEOF], if t == eof then end + 1 else end, t != eof, nbra)
  }

  lemma LoopEnd(pat: seq<byte>, sp: nat, eof: byte, sed: bool, room: int, s: Comp, t: byte)
    requires Sound(s) && s.stack == [] && (t == eof || (t == NEWLINE && !sed)) && Get(pat, sp) == t
    ensures Loop(pat, sp, eof, sed, room, s) == LoopEnds(s.code, sp, t, eof, room, s.nbra)
  {
  }

  /** The loop, over the text of items with something behind it: it goes on from there, with the code of their
      operators written. */
  lemma {:induction false} PrefixShown(pat: seq<byte>, sp: nat, eof: byte, sed: bool, room: int, s: Comp,
                                       items: seq<Item>, ctx: Ctx, t: seq<byte>, last: bool)
    returns (s': Comp)
    requires Rel(s, ctx) && ItemsWritten(items, ctx, eof, last) && Behind(t, eof, last)
    requires Has(pat, sp, ShowItems(items) + t)
    ensures Rel(s', CtxAfter(items, ctx)) && s'.code == s.code + EncAll(OpsOf(items, ctx))
    ensures Loop(pat, sp, eof, sed, room, s) == Loop(pat, sp + |ShowItems(items)|, eof, sed, room, s')
    decreases |items|
  {
    hide Loop, ShowUnit, ShowRep, ItemFine, Enc, OpOf, EncAll, Next, Rel, Behind;
    if items == [] {
      s' := s;
      NoCode(s.code);
    } else {
      var it := items[0];
      var sp2 := sp + |ShowUnit(it.u)| + |ShowRep(it.r)|;
      var next := Next(s, Enc(OpOf(it, ctx)), it, ctx);
      ItemShown(pat, sp, eof, sed, room, s, items, ctx, t, last, sp2, next);
      s' := PrefixShown(pat, sp2, eof, sed, room, next, items[1..], After(it, ctx), t, last);
      CodeGrows(s.code, OpOf(it, ctx), OpsOf(items[1..], After(it, ctx)));
      NextCode(s, Enc(OpOf(it, ctx)), it, ctx);
    }
  }

  lemma NoCode(code: seq<byte>)
    ensures code + EncAll([]) == code
  {
  }

  lemma NextCode(s: Comp, e: seq<byte>, it: Item, ctx: Ctx)
    ensures Next(s, e, it, ctx).code == s.code + e
  {
  }

  lemma {:induction false} OpenedIs(items: seq<Item>, ctx: Ctx, eof: byte, last: bool)
    requires ItemsWritten(items, ctx, eof, last)
    ensures CtxAfter(items, ctx).nbra == ctx.nbra + Opened(items)
    decreases |items|
  {
    hide ItemFine, After;
    if items != [] {
      AfterNbra(items[0], last && |items| == 1, ctx, eof);
      OpenedIs(items[1..], After(items[0], ctx), eof, last);
    }
  }

  /** The loop, over the text of well-formed items and the delimiter. */
  lemma LoopShown(pat: seq<byte>, sp: nat, eof: byte, sed: bool, room: int, s: Comp, items: seq<Item>, ctx: Ctx,
                  t: byte)
    requires Rel(s, ctx) && ItemsFine(items, ctx, eof) && (t == eof || (t == NEWLINE && !sed))
    requires Has(pat, sp, ShowItems(items) + [t])
    ensures Loop(pat, sp, eof, sed, room, s)
         == LoopEnds(s.code + EncAll(OpsOf(items, ctx)), sp + |ShowItems(items)|, t, eof, room, s.nbra + Opened(items))
  {
    hide Loop, ShowItems, ItemFine, EncAll, ItemsFine;
    FineWritten(items, ctx, eof);
    var s' := PrefixShown(pat, sp, eof, sed, room, s, items, ctx, [t], true);
    OpenedIs(items, ctx, eof, true);
    HasSplit(pat, sp, ShowItems(items), [t]);
    HasOne(pat, sp + |ShowItems(items)|, t);
    LoopEnd(pat, sp + |ShowItems(items)|, eof, sed, room, s', t);
  }

  lemma AfterNbra(it: Item, alone: bool, ctx: Ctx, eof: byte)
    requires ItemFine(it, alone, ctx, eof)
    ensures After(it, ctx).nbra == ctx.nbra + (if it.u.OpenB? then 1 else 0)
  {
  }

  lemma ItemShown(pat: seq<byte>, sp: nat, eof: byte, sed: bool, room: int, s: Comp, items: seq<Item>, ctx: Ctx,
                  t: seq<byte>, last: bool, sp2: nat, next: Comp)
    requires Rel(s, ctx) && items != [] && ItemsWritten(items, ctx, eof, last) && Behind(t, eof, last)
    requires Has(pat, sp, ShowItems(items) + t)
    requires sp2 == sp + |ShowUnit(items[0].u)| + |ShowRep(items[0].r)|
    requires next == Next(s, Enc(OpOf(items[0], ctx)), items[0], ctx)
    ensures Rel(next, After(items[0], ctx)) && Has(pat, sp2, ShowItems(items[1..]) + t)
    ensures Loop(pat, sp, eof, sed, room, s) == Loop(pat, sp2, eof, sed, room, next)
  {
    hide Loop, ShowUnit, ShowRep, ItemFine, Enc, OpOf, PeekFine;
    var it := items[0];
    SplitItems(pat, sp, items, t);
    Peek(pat, sp, items, ctx, eof, t, last);
    ItemTurns(pat, sp, eof, sed, room, s, it, last && |items| == 1, ctx, sp + |ShowUnit(it.u)|, sp2, next);
    if |next.code| >= room {
      LoopFull(pat, sp2, eof, sed, room, next);
    }
  }

  lemma CodeGrows(code: seq<byte>, op: Op, ops: seq<Op>)
    ensures code + EncAll([op] + ops) == code + Enc(op) + EncAll(ops)
  {
    assert ([op] + ops)[1..] == ops;
  }

  /** The pattern text at the start of `pat`, and what its first character is not. */
  lemma StartShown(p: Pattern, eof: byte, t: byte, pat: seq<byte>)
    requires PatternFine(p, eof) && Show(p) + [t] <= pat
    ensures Has(pat, if p.anchored then 1 else 0, ShowItems(p.items) + [t])
    ensures Get(pat, 0) == CARET <==> p.anchored
    ensures Get(pat, 0) != eof && Get(pat, 0) != NEWLINE
  {
    var start := if p.anchored then [CARET] else [];
    assert start + ShowItems(p.items) + [t] == start + (ShowItems(p.items) + [t]);
    assert Has(pat, 0, start + (ShowItems(p.items) + [t]));
    HasSplit(pat, 0, start, ShowItems(p.items) + [t]);
    if p.anchored {
      HasOne(pat, 0, CARET);
    } else {
      FirstShown(p.items, CTX0, eof, t, pat);
    }
  }

  lemma FirstShown(items: seq<Item>, ctx: Ctx, eof: byte, t: byte, pat: seq<byte>)
    requires items != [] && ItemsFine(items, ctx, eof) && Has(pat, 0, ShowItems(items) + [t])
    ensures ShowUnit(items[0].u) != [] && Get(pat, 0) == ShowUnit(items[0].u)[0]
    ensures Get(pat, 0) != eof && Get(pat, 0) != NEWLINE
  {
    UnitStart(items[0], |items| == 1, ctx, eof);
    SplitItems(pat, 0, items, [t]);
    assert pat[0 + 0] == ShowUnit(items[0].u)[0];
  }

  /** Compiling a well-formed pattern: the encoding of its operators, or error 50 when the buffer has
      not got room for it and one byte more. */
  lemma CompileShown(p: Pattern, eof: byte, sed: bool, room: int, previous: bool, t: byte, pat: seq<byte>)
    requires PatternFine(p, eof) && (t == eof || (t == NEWLINE && !sed))
    requires Show(p) + [t] <= pat
    ensures var code := EncAll(Ops(p));
            CompileOf(pat, eof, sed, room, previous)
            == if |code| >= room then Failed(50)
               else Compiled(code + [CCEOF], if t == eof then |Show(p)| + 1 else |Show(p)|, t != eof,
                             p.anchored, Opened(p.items))
  {
    hide Loop, Turn, ItemFine, ShowItems, EncAll;
    StartShown(p, eof, t, pat);
    LoopShown(pat, if p.anchored then 1 else 0, eof, sed, room, Comp([], -1, [], 0, 0), p.items, CTX0, t);
    assert [] + EncAll(Ops(p)) == EncAll(Ops(p));
  }
}
