/** `compile`: from pattern text to byte code. */
module RegexCompile {
  import opened Bytes
  import opened RegexMeaning
  import opened RegexCode
  import opened RegexMatcher

  /** `GETC()` at position sp of a NUL-terminated pattern. */
  function Get(pat: seq<byte>, sp: nat): byte {
    if sp < |pat| then pat[sp] else NUL
  }

  function Int32(x: int): int {
    (x + 0x8000_0000) % 0x1_0000_0000 - 0x8000_0000
  }

  predicate IsDigit(c: byte) {
    DIGIT0 <= c <= DIGIT9
  }

  /** `*lastep |= STAR` and `*lastep |= RNGE`. */
  function OrStar(b: byte): byte {
    SetBit(b, 0)
  }

  function OrRnge(b: byte): byte {
    SetBit(SetBit(b, 0), 1)
  }

  // ----- intervals

  datatype Scanned<T> = Got(value: T, sp: nat) | Bad(error: nat)

  /** The digit loop: the number so far is i, the character at sp is a digit or an error.  Ends with
      the number and the character after it. */
  function Digits(pat: seq<byte>, sp: nat, i: int): (r: Scanned<(int, byte)>)
    ensures r.Got? ==> r.value.1 == BACKSLASH || r.value.1 == COMMA
    decreases |pat| - sp
  {
    if !IsDigit(Get(pat, sp)) then Bad(16)
    else
      var i' := Int32(10 * i + Get(pat, sp) - DIGIT0);
      var c := Get(pat, sp + 1);
      if c == BACKSLASH || c == COMMA then Got((i', c), sp + 2) else Digits(pat, sp + 1, i')
  }

  /** `\{m\}`, `\{m,\}` or `\{m,n\}` from after the `{`: the two bytes it leaves. */
  function IntervalAt(pat: seq<byte>, sp: nat): Scanned<(byte, byte)> {
    match Digits(pat, sp, 0)
    case Bad(e) => Bad(e)
    case Got((i, c), sp1) =>
      if i >= 255 then Bad(11)
      else if c == BACKSLASH then
        (if Get(pat, sp1) != RBRACE then Bad(45) else Got((i % 256, i % 256), sp1 + 1))
      else if Get(pat, sp1) == BACKSLASH then
        (if Get(pat, sp1 + 1) != RBRACE then Bad(45) else Got((i % 256, 255), sp1 + 2))
      else
        match Digits(pat, sp1, 0)
        case Bad(e) => Bad(e)
        case Got((j, d), sp2) =>
          if j >= 255 then Bad(11)
          else if d == COMMA then Bad(44)
          else if Get(pat, sp2) != RBRACE then Bad(45)
          else if j % 256 < i % 256 then Bad(46)
          else Got((i % 256, j % 256), sp2 + 1)
  }

  // ----- classes

  /** `PLACE(c)` in the map. */
  function PlaceIn(map_: seq<byte>, c: byte): (r: seq<byte>)
    ensures |r| == |map_|
  {
    if c / 8 < |map_| then map_[c / 8 := SetBit(map_[c / 8], c % 8)] else map_
  }

  /** `while(lc < c) { PLACE(lc); lc++; }` */
  function PlaceUpTo(map_: seq<byte>, lc: byte, c: byte): seq<byte>
    decreases 256 - lc
  {
    if lc < c then PlaceUpTo(PlaceIn(map_, lc), lc + 1, c) else map_
  }

  /** The second half of the map, zeroed when the first character past 127 turns up. */
  function Widen(map_: seq<byte>, c: byte): seq<byte> {
    if c >= 128 && |map_| == 16 then map_ + seq(16, i => 0) else map_
  }

  /** There is no room for that second half: `&ep[32] >= endbuf`. */
  predicate NoRoom(map_: seq<byte>, c: byte, room: int) {
    c >= 128 && |map_| == 16 && room <= 32
  }

  /** One turn of the character loop of a class: c has been read, lc is the character before it. */
  datatype ClassStep =
    | ClassBad(error: nat)
    | ClassDone(map_: seq<byte>, sp: nat)
    | ClassGo(map_: seq<byte>, sp: nat, c: byte, lc: byte)

  function ClassTurn(pat: seq<byte>, sp: nat, c: byte, lc: byte, map_: seq<byte>, room: int): (r: ClassStep)
    requires |map_| == 16 || |map_| == 32
    ensures !r.ClassBad? ==> (|r.map_| == 16 || |r.map_| == 32) && sp < r.sp <= sp + 2 && c != NUL
    ensures r.ClassBad? ==> r.error > 0
    ensures r.ClassGo? ==> r.c == Get(pat, r.sp - 1)
  {
    if c == NUL || c == NEWLINE then ClassBad(49)
    else if NoRoom(map_, c, room) then ClassBad(50)
    else
      var map1 := Widen(map_, c);
      if c == MINUS && lc != NUL then
        var c2 := Get(pat, sp);
        if c2 == RBRACKET then ClassDone(PlaceIn(map1, MINUS), sp + 1)
        else if NoRoom(map1, c2, room) then ClassBad(50)
        else
          PlaceUpToSize(Widen(map1, c2), lc, c2);
          ClassNext(pat, sp + 1, c2, PlaceIn(PlaceUpTo(Widen(map1, c2), lc, c2), c2))
      else
        ClassNext(pat, sp, c, PlaceIn(map1, c))
  }

  /** `} while((c = GETC()) != ']')` */
  function ClassNext(pat: seq<byte>, sp: nat, lc: byte, map_: seq<byte>): ClassStep {
    if Get(pat, sp) == RBRACKET then ClassDone(map_, sp + 1)
    else ClassGo(map_, sp + 1, Get(pat, sp), lc)
  }

  /** The character loop to its end. */
  function ClassLoop(pat: seq<byte>, sp: nat, c: byte, lc: byte, map_: seq<byte>, room: int): (r: Scanned<seq<byte>>)
    requires |map_| == 16 || |map_| == 32
    requires sp > 0 && c == Get(pat, sp - 1)
    ensures r.Got? ==> (|r.value| == 16 || |r.value| == 32) && sp < r.sp
    ensures r.Bad? ==> r.error > 0
    decreases |pat| + 3 - sp
  {
    match ClassTurn(pat, sp, c, lc, map_, room)
    case ClassBad(e) => Bad(e)
    case ClassDone(m, sp1) => Got(m, sp1)
    case ClassGo(m, sp1, c1, lc1) => ClassLoop(pat, sp1, c1, lc1, m, room)
  }

  lemma {:induction false} PlaceUpToSize(map_: seq<byte>, lc: byte, c: byte)
    ensures |PlaceUpTo(map_, lc, c)| == |map_|
    decreases 256 - lc
  {
    if lc < c {
      PlaceUpToSize(PlaceIn(map_, lc), lc + 1, c);
    }
  }

  /** What a negated class does to its opcode and map. */
  function Negate(map_: seq<byte>): seq<byte>
    requires |map_| == 16 || |map_| == 32
  {
    if |map_| == 32 then
      var inv := seq(32, i requires 0 <= i < 32 => Invert(map_[i]));
      [CXCL] + inv[0 := ClearLow(inv[0])]
    else
      [NCCL] + map_[0 := SetBit(map_[0], 0)]
  }

  /** A class from after its `[`: the instruction it leaves.  `room` is what is left of the buffer
      after the opcode. */
  function ClassAt(pat: seq<byte>, sp: nat, room: int): Scanned<seq<byte>> {
    var neg := Get(pat, sp) == CARET;
    var sp1 := if neg then sp + 2 else sp + 1;
    match ClassLoop(pat, sp1, Get(pat, sp1 - 1), NUL, seq(16, i => 0), room)
    case Bad(e) => Bad(e)
    case Got(map_, sp2) =>
      Got(if neg then Negate(map_) else [if |map_| == 32 then CXCL else CCL] + map_, sp2)
  }

  // ----- the main loop

  /** The compiler's variables: code so far, `lastep` as an index into it (-1 for a null pointer),
      the stack of open brackets, brackets opened and brackets closed. */
  datatype Comp = Comp(code: seq<byte>, last: int, stack: seq<byte>, nbra: nat, closed: nat)

  datatype Turned = Go(s: Comp, sp: nat) | Stop(code: seq<byte>, sp: nat, newline: bool, nbra: nat) | Fail(error: nat)

  ghost predicate Sound(s: Comp) {
    -1 <= s.last < |s.code| && s.nbra <= NBRA
  }

  /** `defchar:` */
  function Literal(s: Comp, c: byte): Comp {
    s.(code := s.code + [CCHR, c], last := |s.code|)
  }

  function Emit(s: Comp, bytes: seq<byte>): Comp {
    s.(code := s.code + bytes, last := |s.code|)
  }

  /** What follows a backslash. */
  function Escape(pat: seq<byte>, sp: nat, s: Comp): Turned
    requires Sound(s)
  {
    var c := Get(pat, sp);
    if c == LPAREN then
      if s.nbra >= NBRA then Fail(43)
      else Go(Emit(s, [CBRA, s.nbra]).(stack := s.stack + [s.nbra as byte], nbra := s.nbra + 1), sp + 1)
    else if c == RPAREN then
      if s.stack == [] then Fail(42)
      else
        var top := |s.stack| - 1;
        Go(Emit(s, [CKET, s.stack[top]]).(stack := s.stack[..top], closed := s.closed + 1), sp + 1)
    else if c == LBRACE then
      if s.last == -1 then Go(Literal(s, c), sp + 1)
      else
        (match IntervalAt(pat, sp + 1)
         case Bad(e) => Fail(e)
         case Got((lo, hi), sp1) =>
           Go(s.(code := s.code[s.last := OrRnge(s.code[s.last])] + [lo, hi]), sp1))
    else if c == NEWLINE then Fail(36)
    else if c == LOWERN then Go(Literal(s, NEWLINE), sp + 1)
    else if DIGIT1 <= c <= DIGIT9 then
      if c - DIGIT1 >= s.closed then Fail(25) else Go(Emit(s, [CBACK, c - DIGIT1]), sp + 1)
    else Go(Literal(s, c), sp + 1)
  }

  /** One turn of the main loop; `room` is endbuf - ep at the start of the code. */
  function Turn(pat: seq<byte>, sp: nat, eof: byte, sed: bool, room: int, s: Comp): (r: Turned)
    requires Sound(s)
    ensures r.Go? ==> Sound(r.s)
    ensures r.Go? ==> |r.s.code| > |s.code| || (|r.s.code| == |s.code| && sp < |pat| && sp < r.sp)
    ensures r.Go? ==> |s.code| < room
  {
    var c := Get(pat, sp);
    if |s.code| >= room then Fail(50)
    else if c == eof then
      if s.stack != [] then Fail(42) else Stop(s.code + [CCEOF], sp + 1, false, s.nbra)
    else if c == PERIOD then Go(Emit(s, [CDOT]), sp + 1)
    else if c == NEWLINE then
      if sed then Fail(36)
      else if s.stack != [] then Fail(42)
      else Stop(s.code + [CCEOF], sp, true, s.nbra)
    else if c == ASTERISK then
      if s.last == -1 || s.code[s.last] == CBRA || s.code[s.last] == CKET then Go(Literal(s, c), sp + 1)
      else Go(s.(code := s.code[s.last := OrStar(s.code[s.last])]), sp + 1)
    else if c == DOLLAR then
      if Get(pat, sp + 1) != eof && Get(pat, sp + 1) != NEWLINE then Go(Literal(s, c), sp + 1)
      else Go(Emit(s, [CDOL]), sp + 1)
    else if c == LBRACKET then
      if |s.code| + 17 >= room then Fail(50)
      else
        (match ClassAt(pat, sp + 1, room - |s.code| - 1)
         case Bad(e) => Fail(e)
         case Got(bytes, sp1) => Go(Emit(s, bytes), sp1))
    else if c == BACKSLASH then Escape(pat, sp + 1, s)
    else Go(Literal(s, c), sp + 1)
  }

  /** The main loop to its end. */
  function Loop(pat: seq<byte>, sp: nat, eof: byte, sed: bool, room: int, s: Comp): (r: Turned)
    requires Sound(s)
    ensures !r.Go?
    decreases if room > |s.code| then room - |s.code| else 0, |pat| - sp
  {
    var t := Turn(pat, sp, eof, sed, room, s);
    if t.Go? then Loop(pat, t.sp, eof, sed, room, t.s) else t
  }

  lemma ClassFits(pat: seq<byte>, sp: nat, room: int)
    requires room > 16
    ensures ClassAt(pat, sp, room).Got? ==> |ClassAt(pat, sp, room).value| <= room
  {
    var neg := Get(pat, sp) == CARET;
    var sp1 := if neg then sp + 2 else sp + 1;
    MapFits(pat, sp1, Get(pat, sp1 - 1), NUL, seq(16, i => 0), room);
  }

  lemma {:induction false} MapFits(pat: seq<byte>, sp: nat, c: byte, lc: byte, map_: seq<byte>, room: int)
    requires (|map_| == 16 || |map_| == 32) && |map_| < room && sp > 0 && c == Get(pat, sp - 1)
    ensures ClassLoop(pat, sp, c, lc, map_, room).Got? ==> |ClassLoop(pat, sp, c, lc, map_, room).value| < room
    decreases |pat| + 3 - sp
  {
    hide PlaceUpTo;
    var t := ClassTurn(pat, sp, c, lc, map_, room);
    TurnFits(pat, sp, c, lc, map_, room);
    if t.ClassGo? {
      MapFits(pat, t.sp, t.c, t.lc, t.map_, room);
    }
  }

  lemma TurnFits(pat: seq<byte>, sp: nat, c: byte, lc: byte, map_: seq<byte>, room: int)
    requires (|map_| == 16 || |map_| == 32) && |map_| < room
    ensures var t := ClassTurn(pat, sp, c, lc, map_, room); !t.ClassBad? ==> |t.map_| < room
  {
    PlaceUpToSize(Widen(Widen(map_, c), Get(pat, sp)), lc, Get(pat, sp));
    hide PlaceUpTo;
  }

  /** The bytes that an interval writes, whether it is accepted or not. */
  function IntervalWrites(pat: seq<byte>, sp: nat): (n: nat)
    ensures n <= 2 && (IntervalAt(pat, sp).Got? ==> n == 2)
  {
    match Digits(pat, sp, 0)
    case Bad(_) => 0
    case Got((i, c), sp1) =>
      if i >= 255 then 0
      else if c == BACKSLASH then (if Get(pat, sp1) != RBRACE then 1 else 2)
      else if Get(pat, sp1) == BACKSLASH then 2
      else
        match Digits(pat, sp1, 0)
        case Bad(_) => 1
        case Got((j, _), _) => if j >= 255 then 1 else 2
  }

  function EscapeWrites(pat: seq<byte>, sp: nat, s: Comp): nat {
    var c := Get(pat, sp);
    if c == LPAREN then (if s.nbra >= NBRA then 0 else 2)
    else if c == RPAREN then (if s.stack == [] then 0 else 2)
    else if c == LBRACE && s.last != -1 then IntervalWrites(pat, sp + 1)
    else if c == NEWLINE || (DIGIT1 <= c <= DIGIT9 && c - DIGIT1 >= s.closed) then 0
    else 2
  }

  /** The bytes that a turn of the loop writes, but for a class, which has its own checks. */
  function TurnWrites(pat: seq<byte>, sp: nat, eof: byte, sed: bool, s: Comp): nat
    requires Sound(s)
  {
    var c := Get(pat, sp);
    if c == eof || c == PERIOD then 1
    else if c == NEWLINE then (if sed then 0 else 1)
    else if c == ASTERISK && s.last != -1 && s.code[s.last] != CBRA && s.code[s.last] != CKET then 0
    else if c == DOLLAR && (Get(pat, sp + 1) == eof || Get(pat, sp + 1) == NEWLINE) then 1
    else if c == LBRACKET then 0
    else if c == BACKSLASH then EscapeWrites(pat, sp + 1, s)
    else 2
  }

  /** The check at the top of the loop leaves room for one byte, and most instructions have two: the byte at
      `endbuf` is written when a turn that writes two starts just below it. */
  predicate Overruns(pat: seq<byte>, sp: nat, eof: byte, sed: bool, room: int, s: Comp)
    requires Sound(s)
    decreases if room > |s.code| then room - |s.code| else 0, |pat| - sp
  {
    var t := Turn(pat, sp, eof, sed, room, s);
    |s.code| < room
    && (|s.code| + TurnWrites(pat, sp, eof, sed, s) > room || (t.Go? && Overruns(pat, t.sp, eof, sed, room, t.s)))
  }

  predicate CompileOverruns(pat: seq<byte>, eof: byte, sed: bool, room: int) {
    var c := Get(pat, 0);
    c != eof && c != NEWLINE && Overruns(pat, if c == CARET then 1 else 0, eof, sed, room, Comp([], -1, [], 0, 0))
  }

  /** One turn writes one byte too many at the most, and a turn that does so is the last but for the error. */
  lemma PastEnd(pat: seq<byte>, sp: nat, eof: byte, sed: bool, room: int, s: Comp)
    requires Sound(s) && |s.code| < room
    ensures |s.code| + TurnWrites(pat, sp, eof, sed, s) <= room + 1
    ensures var t := Turn(pat, sp, eof, sed, room, s);
            (t.Go? ==> (|t.s.code| > room <==> |s.code| + TurnWrites(pat, sp, eof, sed, s) > room))
            && (|s.code| + TurnWrites(pat, sp, eof, sed, s) > room ==> Loop(pat, sp, eof, sed, room, s).Fail?)
  {
    hide ClassAt, IntervalAt, IntervalWrites;
    if |s.code| + 17 < room {
      ClassFits(pat, sp + 1, room - |s.code| - 1);
    }
  }

  /** Whenever the byte at `endbuf` is written the compilation fails. */
  lemma {:induction false} OverrunFails(pat: seq<byte>, sp: nat, eof: byte, sed: bool, room: int, s: Comp)
    requires Sound(s) && Overruns(pat, sp, eof, sed, room, s)
    ensures Loop(pat, sp, eof, sed, room, s).Fail?
    decreases if room > |s.code| then room - |s.code| else 0, |pat| - sp
  {
    hide Turn, TurnWrites;
    PastEnd(pat, sp, eof, sed, room, s);
    var t := Turn(pat, sp, eof, sed, room, s);
    if t.Go? && Overruns(pat, t.sp, eof, sed, room, t.s) {
      OverrunFails(pat, t.sp, eof, sed, room, t.s);
    }
  }

  /** The pattern `a` in a buffer of one byte: both bytes of its instruction are written. */
  lemma OverrunWitness()
    ensures CompileOverruns([97, 47], 47, false, 1) && CompileOf([97, 47], 47, false, 1, false) == Failed(50)
  {
  }

  /** How `compile` ends: code of its own, the previous pattern again, or an error number. */
  datatype Outcome =
    | Compiled(code: seq<byte>, sp: nat, newline: bool, circf: bool, nbra: nat)
    | Reused(sp: nat, newline: bool)
    | Failed(error: nat)

  /** `compile`, as a function of the pattern and of whether an earlier pattern is in the buffer. */
  function CompileOf(pat: seq<byte>, eof: byte, sed: bool, room: int, previous: bool): Outcome {
    var c := Get(pat, 0);
    if c == eof || c == NEWLINE then
      if !previous && !sed then Failed(41) else Reused(if c == NEWLINE then 0 else 1, c == NEWLINE)
    else
      var circf := c == CARET;
      match Loop(pat, if circf then 1 else 0, eof, sed, room, Comp([], -1, [], 0, 0))
      case Stop(code, sp, newline, nbra) => Compiled(code, sp, newline, circf, nbra)
      case Fail(e) => Failed(e)
  }

  // ----- the same, writing the buffer

  /** Only the map at buf[ep..ep + n] may differ, and it is `map_`. */
  twostate predicate MapBecomes(buf: array<byte>, ep: nat, map_: seq<byte>)
    reads buf
  {
    ep + |map_| <= buf.Length && buf[ep..ep + |map_|] == map_
    && forall i :: 0 <= i < buf.Length && !(ep <= i < ep + |map_|) ==> buf[i] == old(buf[i])
  }

  /** `PLACE(c)`. */
  method PlaceBit(buf: array<byte>, ep: nat, c: byte, ghost map_: seq<byte>)
    requires ep + |map_| <= buf.Length && buf[ep..ep + |map_|] == map_ && c / 8 < |map_|
    modifies buf
    ensures MapBecomes(buf, ep, PlaceIn(map_, c))
  {
    assert buf[ep + c / 8] == buf[ep..ep + |map_|][c / 8];
    buf[ep + c / 8] := SetBit(buf[ep + c / 8], c % 8);
    assert buf[ep..ep + |map_|] == PlaceIn(map_, c);
  }

  /** The loop over a range. */
  method PlaceRange(buf: array<byte>, ep: nat, lc0: byte, c: byte, ghost map0: seq<byte>)
    requires ep + |map0| <= buf.Length && buf[ep..ep + |map0|] == map0 && c / 8 < |map0|
    modifies buf
    ensures MapBecomes(buf, ep, PlaceUpTo(map0, lc0, c))
  {
    hide SetBit, BitOn, PlaceIn;
    var lc := lc0;
    ghost var map_ := map0;
    while lc < c
      invariant |map_| == |map0| && buf[ep..ep + |map_|] == map_
      invariant lc <= c || lc == lc0
      invariant PlaceUpTo(map_, lc, c) == PlaceUpTo(map0, lc0, c)
      invariant forall i :: 0 <= i < buf.Length && !(ep <= i < ep + |map0|) ==> buf[i] == old(buf[i])
      decreases 256 - lc
    {
      PlaceBit(buf, ep, lc, map_);
      map_ := PlaceIn(map_, lc);
      lc := lc + 1;
    }
  }

  /** Zeroes n bytes from `from` on. */
  method Zero(buf: array<byte>, from: nat, n: nat)
    requires from + n <= buf.Length
    modifies buf
    ensures MapBecomes(buf, from, seq(n, i => 0))
  {
    for i := 0 to n
      invariant forall j :: from <= j < from + i ==> buf[j] == 0
      invariant forall j :: 0 <= j < buf.Length && !(from <= j < from + n) ==> buf[j] == old(buf[j])
    {
      buf[from + i] := 0;
    }
    assert buf[from..from + n] == seq(n, i => 0);
  }

  /** The class under construction: its opcode at ep - 1 and its map at ep. */
  ghost predicate Building(buf: seq<byte>, ep: nat, map_: seq<byte>, prefix: seq<byte>) {
    (|map_| == 16 || |map_| == 32) && 1 <= ep && ep + |map_| <= |buf| && |prefix| == ep - 1
    && buf[..ep - 1] == prefix
    && buf[ep - 1] == (if |map_| == 32 then CXCL else CCL)
    && buf[ep..ep + |map_|] == map_
  }

  lemma BuildingKept(x: seq<byte>, y: seq<byte>, ep: nat, map_: seq<byte>, map2: seq<byte>, prefix: seq<byte>)
    requires Building(x, ep, map_, prefix) && |y| == |x| && |map2| == |map_| && y[ep..ep + |map2|] == map2
    requires forall i :: 0 <= i < |x| && !(ep <= i < ep + |map2|) ==> y[i] == x[i]
    ensures Building(y, ep, map2, prefix)
  {
    assert y[..ep - 1] == x[..ep - 1];
  }

  /** Makes the map wide when c is the first character past 127; `ok` is false when there is no room. */
  method WidenMap(buf: array<byte>, ep: nat, c: byte, iflag: bool, endbuf: nat,
                  ghost map_: seq<byte>, ghost prefix: seq<byte>)
    returns (ok: bool, iflag': bool)
    requires Building(buf[..], ep, map_, prefix) && iflag == (|map_| == 16)
    requires endbuf <= buf.Length
    modifies buf
    ensures ok == !NoRoom(map_, c, endbuf - ep)
    ensures ok ==> Building(buf[..], ep, Widen(map_, c), prefix) && iflag' == (|Widen(map_, c)| == 16)
  {
    ok, iflag' := true, iflag;
    if c >= 128 && iflag {
      iflag' := false;
      if ep + 32 >= endbuf {
        return false, false;
      }
      ghost var before := buf[..];
      buf[ep - 1] := CXCL;
      Zero(buf, ep + 16, 16);
      assert buf[..ep - 1] == before[..ep - 1];
      assert buf[ep..ep + 32] == map_ + seq(16, i => 0) by {
        assert buf[ep..ep + 16] == before[ep..ep + 16] == map_;
        assert buf[ep..ep + 32] == buf[ep..ep + 16] + buf[ep + 16..ep + 32];
      }
    }
  }

  /** A narrow map meets only characters below 128. */
  ghost predicate Fitting(map_: seq<byte>, c: byte) {
    |map_| == 32 || c < 128
  }

  /** `PLACE(c)` on the class under construction. */
  method PlaceChar(buf: array<byte>, ep: nat, c: byte, ghost map_: seq<byte>, ghost prefix: seq<byte>)
    requires Building(buf[..], ep, map_, prefix) && Fitting(map_, c)
    modifies buf
    ensures Building(buf[..], ep, PlaceIn(map_, c), prefix)
  {
    ghost var before := buf[..];
    PlaceBit(buf, ep, c, map_);
    BuildingKept(before, buf[..], ep, map_, PlaceIn(map_, c), prefix);
  }

  method PlaceChars(buf: array<byte>, ep: nat, lc: byte, c: byte, ghost map_: seq<byte>, ghost prefix: seq<byte>)
    requires Building(buf[..], ep, map_, prefix) && Fitting(map_, c)
    modifies buf
    ensures Building(buf[..], ep, PlaceUpTo(map_, lc, c), prefix)
    ensures |PlaceUpTo(map_, lc, c)| == |map_|
  {
    ghost var before := buf[..];
    PlaceUpToSize(map_, lc, c);
    PlaceRange(buf, ep, lc, c, map_);
    BuildingKept(before, buf[..], ep, map_, PlaceUpTo(map_, lc, c), prefix);
  }

  /** The range branch, c being the character after the `-`: places lc up to c, not c itself. */
  method ClassRange(buf: array<byte>, ep: nat, endbuf: nat, lc: byte, c: byte, iflag: bool,
                    ghost map_: seq<byte>, ghost prefix: seq<byte>)
    returns (ok: bool, iflag': bool)
    requires Building(buf[..], ep, map_, prefix) && iflag == (|map_| == 16) && endbuf <= buf.Length
    modifies buf
    ensures ok == !NoRoom(map_, c, endbuf - ep)
    ensures |PlaceUpTo(Widen(map_, c), lc, c)| == |Widen(map_, c)|
    ensures ok ==> Building(buf[..], ep, PlaceUpTo(Widen(map_, c), lc, c), prefix)
    ensures ok ==> iflag' == (|Widen(map_, c)| == 16)
  {
    PlaceUpToSize(Widen(map_, c), lc, c);
    ok, iflag' := WidenMap(buf, ep, c, iflag, endbuf, map_, prefix);
    if ok {
      PlaceChars(buf, ep, lc, c, Widen(map_, c), prefix);
    }
  }

  /** What one turn leaves in the buffer and the variables. */
  ghost predicate ClassLeft(step: ClassStep, buf: seq<byte>, ep: nat, prefix: seq<byte>,
                            err: nat, go: bool, sp: nat, c: byte, lc: byte, iflag: bool)
  {
    match step
    case ClassBad(e) => err == e
    case ClassDone(m, sp1) =>
      err == 0 && !go && sp == sp1 && Building(buf, ep, m, prefix) && iflag == (|m| == 16)
    case ClassGo(m, sp1, c1, lc1) =>
      err == 0 && go && sp == sp1 && c == c1 && lc == lc1
      && Building(buf, ep, m, prefix) && iflag == (|m| == 16)
  }

  /** The body of the loop, with its test at the end: `go` says whether it runs again. */
  method ClassChar(pat: seq<byte>, sp0: nat, c0: byte, lc0: byte, iflag0: bool, buf: array<byte>, ep: nat, endbuf: nat,
                   ghost map0: seq<byte>, ghost prefix: seq<byte>)
    returns (err: nat, go: bool, sp: nat, c: byte, lc: byte, iflag: bool)
    requires Building(buf[..], ep, map0, prefix) && iflag0 == (|map0| == 16) && endbuf <= buf.Length
    modifies buf
    ensures ClassLeft(ClassTurn(pat, sp0, c0, lc0, map0, endbuf - ep), buf[..], ep, prefix, err, go, sp, c, lc, iflag)
  {
    hide PlaceIn, PlaceUpTo, Building, NoRoom, Get;
    err, go, sp, c, lc, iflag := 0, false, sp0, c0, lc0, iflag0;
    if c == NUL || c == NEWLINE {
      err := 49;
      return;
    }
    var ok;
    ok, iflag := WidenMap(buf, ep, c, iflag, endbuf, map0, prefix);
    if !ok {
      err := 50;
      return;
    }
    ghost var map_ := Widen(map0, c);
    if c == MINUS && lc != NUL {
      c := Get(pat, sp);
      sp := sp + 1;
      if c == RBRACKET {
        PlaceChar(buf, ep, MINUS, map_, prefix);
        return;
      }
      ok, iflag := ClassRange(buf, ep, endbuf, lc, c, iflag, map_, prefix);
      if !ok {
        err := 50;
        return;
      }
      map_ := PlaceUpTo(Widen(map_, c), lc, c);
    }
    lc := c;
    PlaceChar(buf, ep, c, map_, prefix);
    c := Get(pat, sp);
    sp := sp + 1;
    go := c != RBRACKET;
  }

  lemma LoopStep(pat: seq<byte>, sp: nat, c: byte, lc: byte, map_: seq<byte>, room: int)
    requires (|map_| == 16 || |map_| == 32) && sp > 0 && c == Get(pat, sp - 1)
    ensures ClassLoop(pat, sp, c, lc, map_, room)
            == match ClassTurn(pat, sp, c, lc, map_, room)
               case ClassBad(e) => Bad(e)
               case ClassDone(m, sp1) => Got(m, sp1)
               case ClassGo(m, sp1, c1, lc1) => ClassLoop(pat, sp1, c1, lc1, m, room)
  {
  }

  /** The character loop of a class. */
  method ClassChars(pat: seq<byte>, sp0: nat, c0: byte, buf: array<byte>, ep: nat, endbuf: nat,
                    ghost map0: seq<byte>, ghost prefix: seq<byte>)
    returns (err: nat, sp: nat, iflag: bool, ghost map_: seq<byte>)
    requires Building(buf[..], ep, map0, prefix) && |map0| == 16 && endbuf <= buf.Length
    requires sp0 > 0 && c0 == Get(pat, sp0 - 1)
    modifies buf
    ensures match ClassLoop(pat, sp0, c0, NUL, map0, endbuf - ep)
            case Bad(e) => err == e
            case Got(m, sp1) => err == 0 && sp == sp1 && m == map_
                                && Building(buf[..], ep, m, prefix) && iflag == (|m| == 16)
  {
    hide ClassTurn, ClassLoop, Building;
    ghost var want := ClassLoop(pat, sp0, c0, NUL, map0, endbuf - ep);
    var c, lc, go: bool := c0, NUL, true;
    sp, iflag, map_, err := sp0, true, map0, 0;
    while go
      invariant Building(buf[..], ep, map_, prefix) && iflag == (|map_| == 16) && err == 0
      invariant |map_| == 16 || |map_| == 32
      invariant go ==> sp > 0 && c == Get(pat, sp - 1) && ClassLoop(pat, sp, c, lc, map_, endbuf - ep) == want
      invariant !go ==> want == Got(map_, sp)
      decreases go, |pat| + 3 - sp
    {
      LoopStep(pat, sp, c, lc, map_, endbuf - ep);
      ghost var step := ClassTurn(pat, sp, c, lc, map_, endbuf - ep);
      err, go, sp, c, lc, iflag := ClassChar(pat, sp, c, lc, iflag, buf, ep, endbuf, map_, prefix);
      if err != 0 {
        return;
      }
      map_ := step.map_;
    }
  }

  /** `if(neg)`: the map inverted, or the opcode changed. */
  method NegateClass(buf: array<byte>, ep: nat, iflag: bool, ghost map_: seq<byte>, ghost prefix: seq<byte>)
    requires Building(buf[..], ep, map_, prefix) && iflag == (|map_| == 16)
    modifies buf
    ensures buf[..ep + |map_|] == prefix + Negate(map_)
  {
    ghost var before := buf[..];
    if iflag {
      buf[ep - 1] := NCCL;
      buf[ep] := SetBit(buf[ep], 0);
      assert buf[ep..ep + 16] == map_[0 := SetBit(map_[0], 0)];
    } else {
      ghost var inv := seq(32, i requires 0 <= i < 32 => Invert(map_[i]));
      for n := 0 to 32
        invariant forall j :: 0 <= j < n ==> buf[..][ep..ep + 32][j] == inv[j]
        invariant forall j :: n <= j < 32 ==> buf[..][ep..ep + 32][j] == map_[j]
        invariant buf[..ep] == before[..ep]
      {
        assert buf[ep + n] == buf[..][ep..ep + 32][n] == map_[n];
        buf[ep + n] := Invert(buf[ep + n]);
      }
      assert buf[ep..ep + 32] == inv;
      buf[ep] := ClearLow(buf[ep]);
      assert buf[ep..ep + 32] == inv[0 := ClearLow(inv[0])];
    }
    assert buf[..ep - 1] == before[..ep - 1];
    Joined(buf[..], ep - 1, ep + |map_|);
    assert buf[ep - 1..ep + |map_|] == [buf[ep - 1]] + buf[ep..ep + |map_|];
  }

  lemma Joined(x: seq<byte>, i: nat, j: nat)
    requires i <= j <= |x|
    ensures x[..j] == x[..i] + x[i..j]
  {
  }

  lemma BuiltPositive(buf: seq<byte>, ep: nat, map_: seq<byte>, prefix: seq<byte>)
    requires Building(buf, ep, map_, prefix)
    ensures buf[..ep + |map_|] == prefix + ([if |map_| == 32 then CXCL else CCL] + map_)
  {
    Joined(buf, ep - 1, ep + |map_|);
    assert buf[ep - 1..ep + |map_|] == [buf[ep - 1]] + buf[ep..ep + |map_|];
  }

  /** `case '['` from where the bracket has been read and room for a narrow map has been found. */
  method CompileClass(pat: seq<byte>, sp0: nat, buf: array<byte>, ep0: nat, endbuf: nat, ghost prefix: seq<byte>)
    returns (err: nat, sp: nat, ep: nat)
    requires ep0 + 17 < endbuf <= buf.Length && buf[..ep0] == prefix
    modifies buf
    ensures match ClassAt(pat, sp0, endbuf - ep0 - 1)
            case Bad(e) => err == e && e > 0
            case Got(bytes, sp1) =>
              err == 0 && sp == sp1 && ep == ep0 + |bytes| && ep <= buf.Length && buf[..ep] == prefix + bytes
  {
    buf[ep0] := CCL;
    ep := ep0 + 1;
    Zero(buf, ep, 16);
    assert buf[..ep0] == prefix;
    var neg := false;
    var c := Get(pat, sp0);
    sp := sp0 + 1;
    if c == CARET {
      neg := true;
      c := Get(pat, sp);
      sp := sp + 1;
    }
    var iflag;
    ghost var map_;
    err, sp, iflag, map_ := ClassChars(pat, sp, c, buf, ep, endbuf, seq(16, i => 0), prefix);
    if err != 0 {
      return;
    }
    if neg {
      NegateClass(buf, ep, iflag, map_, prefix);
    } else {
      BuiltPositive(buf[..], ep, map_, prefix);
    }
    ep := ep + (if iflag then 16 else 32);
  }

  /** The digit loop. */
  method ScanDigits(pat: seq<byte>, sp0: nat) returns (err: nat, i: int, c: byte, sp: nat)
    ensures match Digits(pat, sp0, 0)
            case Bad(e) => err == e && e > 0
            case Got((n, d), sp1) => err == 0 && i == n && c == d && sp == sp1
  {
    ghost var want := Digits(pat, sp0, 0);
    err, i, c, sp := 0, 0, Get(pat, sp0), sp0 + 1;
    while true
      invariant err == 0 && sp > 0 && c == Get(pat, sp - 1) && Digits(pat, sp - 1, i) == want
      decreases |pat| + 1 - sp
    {
      if !IsDigit(c) {
        return 16, i, c, sp;
      }
      i := Int32(10 * i + c - DIGIT0);
      c := Get(pat, sp);
      sp := sp + 1;
      if c == BACKSLASH || c == COMMA {
        break;
      }
    }
  }

  /** `case '{'` from `nlim:` on. */
  method CompileInterval(pat: seq<byte>, sp0: nat, buf: array<byte>, ep0: nat, ghost prefix: seq<byte>)
    returns (err: nat, sp: nat, ep: nat)
    requires ep0 + IntervalWrites(pat, sp0) <= buf.Length && buf[..ep0] == prefix
    modifies buf
    ensures match IntervalAt(pat, sp0)
            case Bad(e) => err == e && e > 0
            case Got((lo, hi), sp1) =>
              err == 0 && sp == sp1 && ep == ep0 + 2 && buf[..ep] == prefix + [lo, hi]
  {
    var i, c;
    ep := ep0;
    err, i, c, sp := ScanDigits(pat, sp0);
    if err != 0 {
      return;
    }
    if i >= 255 {
      return 11, sp, ep;
    }
    buf[ep] := i % 256;
    ep := ep + 1;
    var cflg := c == COMMA;
    if cflg {
      if Get(pat, sp) == BACKSLASH {
        sp := sp + 1;
        buf[ep] := 255;
      } else {
        err, i, c, sp := ScanDigits(pat, sp);
        if err != 0 {
          return;
        }
        if i >= 255 {
          return 11, sp, ep;
        }
        buf[ep] := i % 256;
        if c == COMMA {
          return 44, sp, ep;
        }
      }
      ep := ep + 1;
    }
    var close := Get(pat, sp);
    sp := sp + 1;
    if close != RBRACE {
      return 45, sp, ep;
    }
    if !cflg {
      buf[ep] := i % 256;
      ep := ep + 1;
    } else if buf[ep - 1] < buf[ep - 2] {
      return 46, sp, ep;
    }
    assert buf[..ep0] == prefix;
    assert buf[..ep] == buf[..ep0] + [buf[ep0], buf[ep0 + 1]];
  }

  // ----- the main loop on the buffer

  /** `lastep`, as an index into the buffer. */
  ghost function LastOf(base: seq<byte>, s: Comp): int {
    if s.last == -1 then -1 else |base| + s.last
  }

  /** The C variables are the compiler's: `base` is what stood in the buffer before the code. */
  ghost predicate Mirrors(buf: seq<byte>, ep: nat, lastep: int, bracket: seq<byte>, nbra: nat, closed: nat,
                          base: seq<byte>, s: Comp)
  {
    ep <= |buf| && buf[..ep] == base + s.code
    && lastep == LastOf(base, s)
    && bracket == s.stack && nbra == s.nbra && closed == s.closed
  }

  /** What a turn of the loop leaves. */
  ghost predicate Left(t: Turned, buf: seq<byte>, sp: nat, ep: nat, lastep: int, bracket: seq<byte>,
                       nbra: nat, closed: nat, base: seq<byte>, err: nat, stop: bool, newline: bool)
  {
    match t
    case Fail(e) => err == e && e > 0
    case Stop(code, sp1, nl, n) =>
      err == 0 && stop && sp == sp1 && newline == nl && nbra == n && ep <= |buf| && buf[..ep] == base + code
    case Go(s, sp1) =>
      err == 0 && !stop && sp == sp1 && Mirrors(buf, ep, lastep, bracket, nbra, closed, base, s)
  }

  lemma Wrote(before: seq<byte>, after: seq<byte>, ep: nat, base: seq<byte>, code: seq<byte>, bytes: seq<byte>)
    requires ep + |bytes| <= |after| && ep <= |before| && before[..ep] == base + code
    requires after[..ep] == before[..ep] && after[ep..ep + |bytes|] == bytes
    ensures after[..ep + |bytes|] == base + (code + bytes)
  {
    Joined(after, ep, ep + |bytes|);
    assert base + code + bytes == base + (code + bytes);
  }

  /** Two bytes of code. */
  method EmitTwo(buf: array<byte>, ep: nat, a: byte, b: byte, ghost base: seq<byte>, ghost code: seq<byte>)
    requires ep + 1 < buf.Length && buf[..ep] == base + code
    modifies buf
    ensures buf[..ep + 2] == base + (code + [a, b])
  {
    ghost var before := buf[..];
    buf[ep] := a;
    buf[ep + 1] := b;
    assert buf[..ep] == before[..ep];
    assert buf[ep..ep + 2] == [a, b];
    Wrote(before, buf[..], ep, base, code, [a, b]);
  }

  method EmitOne(buf: array<byte>, ep: nat, a: byte, ghost base: seq<byte>, ghost code: seq<byte>)
    requires ep < buf.Length && buf[..ep] == base + code
    modifies buf
    ensures buf[..ep + 1] == base + (code + [a])
  {
    ghost var before := buf[..];
    buf[ep] := a;
    assert buf[..ep] == before[..ep];
    assert buf[ep..ep + 1] == [a];
    Wrote(before, buf[..], ep, base, code, [a]);
  }

  /** `*lastep |= ...` */
  method OrLast(buf: array<byte>, ep: nat, lastep: nat, b: byte, ghost base: seq<byte>, ghost code: seq<byte>)
    requires ep <= buf.Length && buf[..ep] == base + code && |base| <= lastep < ep
    modifies buf
    ensures buf[..ep] == base + code[lastep - |base| := b]
  {
    buf[lastep] := b;
    assert buf[..ep] == (base + code)[lastep := b];
    assert (base + code)[lastep := b] == base + code[lastep - |base| := b];
  }

  /** `case '\\'` from after the backslash. */
  method CompileEscape(re: Regexp, pat: seq<byte>, sp0: nat, buf: array<byte>, ep0: nat, lastep0: int,
                       bracket0: seq<byte>, closed0: nat, ghost base: seq<byte>, ghost s: Comp)
    returns (err: nat, sp: nat, ep: nat, lastep: int, bracket: seq<byte>, closed: nat)
    requires Sound(s) && ep0 + EscapeWrites(pat, sp0, s) <= buf.Length && ep0 == |base| + |s.code|
    requires Mirrors(buf[..], ep0, LastOf(base, s), bracket0, re.nbra, closed0, base, s)
    requires lastep0 == if Get(pat, sp0) == LBRACE then LastOf(base, s) else ep0
    modifies re`nbra, buf
    ensures Left(Escape(pat, sp0, s), buf[..], sp, ep, lastep, bracket, re.nbra, closed, base, err, false, false)
  {
    hide IntervalAt;
    err, sp, ep, lastep, bracket, closed := 0, sp0 + 1, ep0, lastep0, bracket0, closed0;
    var c := Get(pat, sp0);
    if c == LPAREN {
      if re.nbra >= NBRA {
        err := 43;
        return;
      }
      bracket := bracket + [re.nbra];
      EmitTwo(buf, ep, CBRA, re.nbra, base, s.code);
      ep := ep + 2;
      re.nbra := re.nbra + 1;
    } else if c == RPAREN {
      if bracket == [] {
        err := 42;
        return;
      }
      var top := bracket[|bracket| - 1];
      bracket := bracket[..|bracket| - 1];
      EmitTwo(buf, ep, CKET, top, base, s.code);
      ep := ep + 2;
      closed := closed + 1;
    } else if c == LBRACE {
      if lastep == -1 {
        lastep := ep;
        EmitTwo(buf, ep, CCHR, c, base, s.code);
        ep := ep + 2;
      } else {
        OrLast(buf, ep, lastep, OrRnge(buf[lastep]), base, s.code);
        err, sp, ep := CompileInterval(pat, sp, buf, ep, buf[..ep]);
      }
    } else if c == NEWLINE {
      err := 36;
    } else if c == LOWERN {
      lastep := ep;
      EmitTwo(buf, ep, CCHR, NEWLINE, base, s.code);
      ep := ep + 2;
    } else if DIGIT1 <= c <= DIGIT9 {
      if c - DIGIT1 >= closed {
        err := 25;
        return;
      }
      EmitTwo(buf, ep, CBACK, c - DIGIT1, base, s.code);
      ep := ep + 2;
    } else {
      lastep := ep;
      EmitTwo(buf, ep, CCHR, c, base, s.code);
      ep := ep + 2;
    }
  }

  /** One turn of `while(1)`. */
  method CompileTurn(re: Regexp, pat: seq<byte>, sp0: nat, eof: byte, buf: array<byte>, ep0: nat, endbuf: nat,
                     lastep0: int, bracket0: seq<byte>, closed0: nat, ghost base: seq<byte>, ghost s: Comp)
    returns (err: nat, stop: bool, newline: bool, sp: nat, ep: nat, lastep: int, bracket: seq<byte>, closed: nat)
    requires Sound(s) && endbuf <= buf.Length && ep0 == |base| + |s.code|
    requires endbuf == buf.Length && ep0 < endbuf ==> ep0 + TurnWrites(pat, sp0, eof, re.sed, s) <= endbuf
    requires Mirrors(buf[..], ep0, lastep0, bracket0, re.nbra, closed0, base, s)
    modifies re`nbra, buf
    ensures Left(Turn(pat, sp0, eof, re.sed, endbuf - |base|, s), buf[..], sp, ep, lastep, bracket,
                 re.nbra, closed, base, err, stop, newline)
  {
    hide Escape, ClassAt, OrStar;
    err, stop, newline := 0, false, false;
    sp, ep, lastep, bracket, closed := sp0 + 1, ep0, lastep0, bracket0, closed0;
    if ep >= endbuf {
      err := 50;
      return;
    }
    var c := Get(pat, sp0);
    if c != ASTERISK && (c != BACKSLASH || Get(pat, sp) != LBRACE) {
      lastep := ep;
    }
    if c == eof || (c == NEWLINE && !re.sed) {
      EmitOne(buf, ep, CCEOF, base, s.code);
      ep := ep + 1;
      stop := true;
      if c != eof {
        sp, newline := sp0, true;
      }
      if bracket != [] {
        err := 42;
      }
    } else if c == PERIOD {
      EmitOne(buf, ep, CDOT, base, s.code);
      ep := ep + 1;
    } else if c == NEWLINE {
      err := 36;
    } else if c == ASTERISK && lastep != -1 && buf[lastep] != CBRA && buf[lastep] != CKET {
      OrLast(buf, ep, lastep, OrStar(buf[lastep]), base, s.code);
    } else if c == DOLLAR && (Get(pat, sp) == eof || Get(pat, sp) == NEWLINE) {
      EmitOne(buf, ep, CDOL, base, s.code);
      ep := ep + 1;
    } else if c == LBRACKET {
      if ep + 17 >= endbuf {
        err := 50;
        return;
      }
      err, sp, ep := CompileClass(pat, sp, buf, ep, endbuf, base + s.code);
      Regrouped(base, s.code, pat, sp0 + 1, endbuf - ep0 - 1);
    } else if c == BACKSLASH {
      err, sp, ep, lastep, bracket, closed := CompileEscape(re, pat, sp, buf, ep, lastep, bracket, closed, base, s);
    } else {
      lastep := ep;
      EmitTwo(buf, ep, CCHR, c, base, s.code);
      ep := ep + 2;
    }
  }

  lemma Regrouped(base: seq<byte>, code: seq<byte>, pat: seq<byte>, sp: nat, room: int)
    ensures var r := ClassAt(pat, sp, room);
            r.Got? ==> base + code + r.value == base + (code + r.value)
  {
  }

  /** What `compile` returns and leaves in the buffer, for each way it ends. */
  ghost predicate Finished(o: Outcome, err: nat, sp: nat, ep: nat, ep0: nat, before: seq<byte>, after: seq<byte>,
                           nodelim0: bool, nodelim: bool)
  {
    match o
    case Failed(e) => err == e && e > 0
    case Reused(sp1, newline) =>
      err == 0 && sp == sp1 && ep == ep0 && after == before && nodelim == (newline || nodelim0)
    case Compiled(code, sp1, newline, _, _) =>
      err == 0 && sp == sp1 && ep0 <= |before| && ep == ep0 + |code| && ep <= |after|
      && after[..ep] == before[..ep0] + code && nodelim == (newline || nodelim0)
  }

  /** `compile(instring, ep, endbuf, eof)`.  The code is buf[ep0..ep] when `err` is 0.  A caller who leaves no
      writable byte at `endbuf` must know that the pattern does not overrun. */
  method Compile(re: Regexp, pat: seq<byte>, buf: array<byte>, ep0: nat, endbuf: nat, eof: byte)
    returns (err: nat, sp: nat, ep: nat)
    requires ep0 < buf.Length && endbuf <= buf.Length
    requires endbuf == buf.Length ==> !CompileOverruns(pat, eof, re.sed, endbuf - ep0)
    modifies re`nbra, re`circf, re`nodelim, buf
    ensures Finished(CompileOf(pat, eof, re.sed, endbuf - ep0, old(buf[ep0]) != 0), err, sp, ep, ep0,
                     old(buf[..]), buf[..], old(re.nodelim), re.nodelim)
    ensures var o := CompileOf(pat, eof, re.sed, endbuf - ep0, old(buf[ep0]) != 0);
            (o.Compiled? ==> re.circf == o.circf && re.nbra == o.nbra)
            && (o.Reused? ==> re.circf == old(re.circf) && re.nbra == old(re.nbra))
  {
    var c := Get(pat, 0);
    err, sp, ep := 0, 1, ep0;
    if c == eof || c == NEWLINE {
      if c == NEWLINE {
        sp := 0;
        re.nodelim := true;
      }
      if buf[ep] == 0 && !re.sed {
        err := 41;
      }
      return;
    }
    re.circf, re.nbra := false, 0;
    if c == CARET {
      re.circf := true;
    } else {
      sp := 0;
    }
    var newline;
    err, newline, sp, ep := CompileLoop(re, pat, sp, buf, ep, endbuf, eof);
    if newline {
      re.nodelim := true;
    }
  }

  /** `while(1)`. */
  method CompileLoop(re: Regexp, pat: seq<byte>, sp0: nat, buf: array<byte>, ep0: nat, endbuf: nat, eof: byte)
    returns (err: nat, newline: bool, sp: nat, ep: nat)
    requires ep0 < buf.Length && endbuf <= buf.Length && re.nbra == 0
    requires endbuf == buf.Length ==> !Overruns(pat, sp0, eof, re.sed, endbuf - ep0, Comp([], -1, [], 0, 0))
    modifies re`nbra, buf
    ensures match Loop(pat, sp0, eof, re.sed, endbuf - ep0, Comp([], -1, [], 0, 0))
            case Fail(e) => err == e && e > 0
            case Stop(code, sp1, nl, n) =>
              err == 0 && sp == sp1 && newline == nl && re.nbra == n
              && ep == ep0 + |code| && ep <= buf.Length && buf[..ep] == old(buf[..ep0]) + code
  {
    hide Turn;
    ghost var base := buf[..ep0];
    ghost var s := Comp([], -1, [], 0, 0);
    ghost var want := Loop(pat, sp0, eof, re.sed, endbuf - ep0, s);
    var lastep, bracket, closed, stop: bool := -1, [], 0, false;
    err, newline, sp, ep := 0, false, sp0, ep0;
    while !stop
      invariant err == 0
      invariant !stop ==> Sound(s) && Mirrors(buf[..], ep, lastep, bracket, re.nbra, closed, base, s)
      invariant !stop ==> ep == |base| + |s.code| && Loop(pat, sp, eof, re.sed, endbuf - ep0, s) == want
      invariant !stop && endbuf == buf.Length ==> !Overruns(pat, sp, eof, re.sed, endbuf - ep0, s)
      invariant stop ==> want.Stop? && sp == want.sp && newline == want.newline && re.nbra == want.nbra
      invariant stop ==> ep <= buf.Length && buf[..ep] == base + want.code
      decreases !stop, if endbuf - ep0 > |s.code| then endbuf - ep0 - |s.code| else 0, |pat| - sp
    {
      ghost var t := Turn(pat, sp, eof, re.sed, endbuf - ep0, s);
      err, stop, newline, sp, ep, lastep, bracket, closed :=
        CompileTurn(re, pat, sp, eof, buf, ep, endbuf, lastep, bracket, closed, base, s);
      if err != 0 {
        return;
      }
      if !stop {
        s := t.s;
      }
    }
  }
}
