/** `step` and `advance`: the backtracking interpreter of the byte code. */
module RegexMatcher {
  import opened Bytes
  import opened RegexMeaning
  import opened RegexSearch
  import opened RegexCode
  import opened RegexHangs

  /** What `advance` does: return 1, return 0, or never return. */
  datatype Answer = Yes | No | Hangs

  /** `*lp`: the text, then its NUL; nothing past that may be read. */
  function CharAt(text: seq<byte>, lp: nat): byte
    requires lp <= |text|
  {
    if lp < |text| then text[lp] else NUL
  }

  predicate HasAtom(op: Op) {
    op.One? || op.Many? || op.Between?
  }

  predicate IsAtomOp(b: byte) {
    b == CCHR || b == CDOT || b == CCL || b == CXCL || b == NCCL
  }

  function ArgSize(base: byte): nat
    requires IsAtomOp(base)
  {
    if base == CCHR then 1 else if base == CDOT then 0 else if base == CXCL then 32 else 16
  }

  /** The test an opcode makes on a character. */
  predicate Test(base: byte, code: seq<byte>, ep: nat, c: byte)
    requires IsAtomOp(base) && ep + ArgSize(base) <= |code|
  {
    if base == CCHR then code[ep] == c
    else if base == CDOT then c != NUL
    else if base == CXCL then IsThere(code, ep, c)
    else (c < 128 && IsThere(code, ep, c)) != (base == NCCL)
  }

  lemma AtomShape(a: Atom)
    ensures IsAtomOp(AtomOp(a)) && |AtomArg(a)| == ArgSize(AtomOp(a))
  {
  }

  lemma TestTakes(a: Atom, code: seq<byte>, ep: nat, c: byte)
    requires AtomFine(a)
    requires Has(code, ep, AtomArg(a))
    ensures IsAtomOp(AtomOp(a)) && |AtomArg(a)| == ArgSize(AtomOp(a))
    ensures Test(AtomOp(a), code, ep, c) == Takes(a, c)
  {
    match a
    case Chr(d) => assert code[ep + 0] == AtomArg(a)[0];
    case Any =>
    case Cls(k) => ClassTest(k, code, ep, c);
  }

  /** The end of the longest run from lo of at most `most` characters. */
  function RunEnd(a: Atom, text: seq<byte>, lo: nat, most: nat): (hi: nat)
    requires lo <= |text|
    ensures hi - lo <= most && Run(a, text, lo, hi)
    ensures forall x :: Run(a, text, lo, x) && x - lo <= most ==> x <= hi
    decreases most
  {
    if most == 0 || lo == |text| || !Takes(a, text[lo]) then lo
    else
      assert forall x :: Run(a, text, lo, x) && x > lo ==> Run(a, text, lo + 1, x);
      RunEnd(a, text, lo + 1, most - 1)
  }

  lemma RunEndIs(a: Atom, text: seq<byte>, lo: nat, most: nat, hi: nat)
    requires Run(a, text, lo, hi) && hi - lo <= most
    requires hi == |text| || hi - lo == most || !Takes(a, text[hi])
    ensures RunEnd(a, text, lo, most) == hi
  {
  }

  lemma RunShrinks(a: Atom, text: seq<byte>, lo: int, mid: int, hi: int)
    requires Run(a, text, lo, hi) && lo <= mid <= hi
    ensures Run(a, text, lo, mid) && Run(a, text, mid, hi)
  {
  }

  /** `strncmp(p, q, n) == 0` within one text. */
  predicate SameChars(text: seq<byte>, p: nat, q: nat, n: nat)
    requires p <= |text| && q <= |text|
    decreases n
  {
    n == 0
    || (CharAt(text, p) == CharAt(text, q)
        && (CharAt(text, p) == NUL || (p < |text| && q < |text| && SameChars(text, p + 1, q + 1, n - 1))))
  }

  lemma {:induction false} SameCharsIsEqual(text: seq<byte>, p: nat, q: nat, n: nat)
    requires IsText(text) && p + n <= |text| && q <= |text|
    ensures SameChars(text, p, q, n) == (q + n <= |text| && text[q..q + n] == text[p..p + n])
    decreases n
  {
    if n > 0 {
      assert text[p] in text;
      if q < |text| {
        SameCharsIsEqual(text, p + 1, q + 1, n - 1);
        if q + n <= |text| {
          assert text[q..q + n] == [text[q]] + text[q + 1..q + n];
          assert text[p..p + n] == [text[p]] + text[p + 1..p + n];
        }
      }
    }
  }

  // ----- the search, as the machine sees it

  /** The bracket slots hold the bounds that the attempt in progress gave its brackets. */
  ghost predicate SlotsHold(ops: seq<Op>, cuts: seq<int>, bras: seq<int>, brae: seq<int>) {
    |bras| == NBRA && |brae| == NBRA
    && forall j :: 0 <= j < |cuts| - 1 && j < |ops| ==>
         (ops[j].Open? && ops[j].k < NBRA ==> bras[ops[j].k] == cuts[j])
         && (ops[j].Close? && ops[j].k < NBRA ==> brae[ops[j].k] == cuts[j])
  }

  /** The machine stands at operator |pre| - 1, its instruction at ep, having matched as `pre` says. */
  ghost predicate Standing(code: seq<byte>, ep: nat, ops: seq<Op>, s: Subject, pre: seq<int>) {
    Fine(ops) && IsText(s.text) && Partial(ops, s, pre) && Holds(code, ep, ops, |pre| - 1)
  }

  /** What is left to do is to give the cut after `pre` each of these values, largest first. */
  ghost predicate Choices(ops: seq<Op>, s: Subject, pre: seq<int>, low: int, high: int)
    requires Fine(ops) && Partial(ops, s, pre) && |pre| <= |ops|
  {
    forall b :: Fits(ops, s, pre + [b], |pre| - 1)
                <==> low <= b <= high && !(b <= s.locs <= high)
  }

  lemma ManyChoices(ops: seq<Op>, s: Subject, pre: seq<int>)
    requires Fine(ops) && Partial(ops, s, pre) && |pre| <= |ops| && ops[|pre| - 1].Many?
    ensures var lo := pre[|pre| - 1];
            0 <= lo <= |s.text|
            && Choices(ops, s, pre, lo, RunEnd(ops[|pre| - 1].a, s.text, lo, |s.text|))
  {
    var i := |pre| - 1;
    Monotone(ops, s, pre, i, i);
    var lo, a := pre[i], ops[i].a;
    var high := RunEnd(a, s.text, lo, |s.text|);
    assert OpFine(ops, i);
    forall b
      ensures Fits(ops, s, pre + [b], i) <==> lo <= b <= high && !(b <= s.locs <= high)
    {
      if lo <= b <= high {
        RunShrinks(a, s.text, lo, b, high);
        if b <= s.locs <= high {
          RunShrinks(a, s.text, lo, s.locs, high);
        }
      }
    }
  }

  lemma BetweenChoices(ops: seq<Op>, s: Subject, pre: seq<int>, curlp: int)
    requires Fine(ops) && Partial(ops, s, pre) && |pre| <= |ops| && ops[|pre| - 1].Between?
    requires var op := ops[|pre| - 1];
             curlp == pre[|pre| - 1] + op.lo && Run(op.a, s.text, pre[|pre| - 1], curlp)
    ensures var op := ops[|pre| - 1];
            OpFine(ops, |pre| - 1)
            && Choices(ops, s, pre, curlp, RunEnd(op.a, s.text, curlp, Extra(op.lo, op.hi)))
  {
    var i := |pre| - 1;
    Monotone(ops, s, pre, i, i);
    assert OpFine(ops, i);
    var lo, a := pre[i], ops[i].a;
    var most := Extra(ops[i].lo, ops[i].hi);
    var high := RunEnd(a, s.text, curlp, most);
    forall b
      ensures Fits(ops, s, pre + [b], i) <==> curlp <= b <= high && !(b <= s.locs <= high)
    {
      if curlp <= b <= high {
        RunShrinks(a, s.text, curlp, b, high);
        if b <= s.locs <= high {
          RunShrinks(a, s.text, curlp, s.locs, high);
        }
      }
      if Fits(ops, s, pre + [b], i) {
        RunShrinks(a, s.text, lo, curlp, b);
      }
      if curlp <= s.locs && Run(a, s.text, lo, s.locs) {
        RunShrinks(a, s.text, lo, curlp, s.locs);
      }
    }
  }

  lemma ChoicesAbove(ops: seq<Op>, s: Subject, pre: seq<int>, low: int, high: int)
    requires Fine(ops) && Partial(ops, s, pre) && |pre| <= |ops| && HasAtom(ops[|pre| - 1])
    requires Choices(ops, s, pre, low, high)
    ensures NoneFrom(ops, s, pre, high + 1)
  {
    forall c | c > high
      ensures NoEvent(ops, s, pre + [c])
    {
      Misfit(ops, s, pre, c);
    }
  }

  /** All choices from `done` up have been tried and `locs` forbids the rest. */
  lemma ChoicesBlocked(ops: seq<Op>, s: Subject, pre: seq<int>, low: int, high: int, done: int)
    requires Fine(ops) && Partial(ops, s, pre) && |pre| <= |ops| && HasAtom(ops[|pre| - 1])
    requires Choices(ops, s, pre, low, high) && s.locs == done - 1 <= high
    requires NoneFrom(ops, s, pre, done)
    ensures NoEvent(ops, s, pre)
  {
    forall c | c < done
      ensures NoEvent(ops, s, pre + [c])
    {
      Misfit(ops, s, pre, c);
    }
    assert forall c :: NoEvent(ops, s, pre + [c]);
    Exhausted(ops, s, pre);
  }

  lemma ChoicesBelow(ops: seq<Op>, s: Subject, pre: seq<int>, low: int, high: int)
    requires Fine(ops) && Partial(ops, s, pre) && |pre| <= |ops| && HasAtom(ops[|pre| - 1])
    requires Choices(ops, s, pre, low, high)
    requires NoneFrom(ops, s, pre, low)
    ensures NoEvent(ops, s, pre)
  {
    forall c | c < low
      ensures NoEvent(ops, s, pre + [c])
    {
      Misfit(ops, s, pre, c);
    }
    assert forall c :: NoEvent(ops, s, pre + [c]);
    Exhausted(ops, s, pre);
  }

  /** Fewer than the lower number of an interval: no way on. */
  lemma TooFew(ops: seq<Op>, s: Subject, pre: seq<int>)
    requires Fine(ops) && Partial(ops, s, pre) && |pre| <= |ops| && ops[|pre| - 1].Between?
    requires var op := ops[|pre| - 1]; !Run(op.a, s.text, pre[|pre| - 1], pre[|pre| - 1] + op.lo)
    ensures NoEvent(ops, s, pre)
  {
    var i := |pre| - 1;
    assert OpFine(ops, i);
    forall b
      ensures !Fits(ops, s, pre + [b], i)
    {
      if Fits(ops, s, pre + [b], i) {
        RunShrinks(ops[i].a, s.text, pre[i], pre[i] + ops[i].lo, b);
      }
    }
    DeadEnd(ops, s, pre);
  }

  // ----- what each instruction leaves to do

  /** One way on, or none. */
  lemma MoveOn(ops: seq<Op>, s: Subject, pre: seq<int>, b: int, ok: bool)
    requires Fine(ops) && Partial(ops, s, pre) && |pre| <= |ops| && !Stuck(ops, s, pre)
    requires forall c :: Fits(ops, s, pre + [c], |pre| - 1) <==> ok && c == b
    ensures ok ==> Partial(ops, s, pre + [b]) && Settles(ops, s, pre + [b], pre)
    ensures !ok ==> NoEvent(ops, s, pre)
  {
    if ok {
      PartialExtend(ops, s, pre, b);
      Forced(ops, s, pre, b);
    } else {
      DeadEnd(ops, s, pre);
    }
  }

  lemma OneMoves(ops: seq<Op>, s: Subject, pre: seq<int>)
    requires Fine(ops) && IsText(s.text) && Partial(ops, s, pre) && |pre| <= |ops| && ops[|pre| - 1].One?
    ensures 0 <= pre[|pre| - 1] <= |s.text| && AtomFine(ops[|pre| - 1].a)
    ensures var ok := Takes(ops[|pre| - 1].a, CharAt(s.text, pre[|pre| - 1]));
            var b := pre[|pre| - 1] + 1;
            (ok ==> Partial(ops, s, pre + [b]) && Settles(ops, s, pre + [b], pre))
            && (!ok ==> NoEvent(ops, s, pre))
  {
    var i := |pre| - 1;
    Monotone(ops, s, pre, i, i);
    assert OpFine(ops, i);
    MoveOn(ops, s, pre, pre[i] + 1, Takes(ops[i].a, CharAt(s.text, pre[i])));
  }

  lemma NoWidthMoves(ops: seq<Op>, s: Subject, pre: seq<int>)
    requires Fine(ops) && IsText(s.text) && Partial(ops, s, pre) && |pre| <= |ops|
    requires ops[|pre| - 1].Dollar? || ops[|pre| - 1].Open? || ops[|pre| - 1].Close?
    ensures 0 <= pre[|pre| - 1] <= |s.text|
    ensures var ok := ops[|pre| - 1].Dollar? ==> CharAt(s.text, pre[|pre| - 1]) == NUL;
            var b := pre[|pre| - 1];
            (ok ==> Partial(ops, s, pre + [b]) && Settles(ops, s, pre + [b], pre))
            && (!ok ==> NoEvent(ops, s, pre))
  {
    var i := |pre| - 1;
    Monotone(ops, s, pre, i, i);
    assert OpFine(ops, i);
    assert pre[i] < |s.text| ==> s.text[pre[i]] in s.text;
    MoveOn(ops, s, pre, pre[i], ops[i].Dollar? ==> CharAt(s.text, pre[i]) == NUL);
  }

  lemma BackMoves(ops: seq<Op>, s: Subject, pre: seq<int>, bbeg: nat, ct: nat)
    requires Fine(ops) && IsText(s.text) && Partial(ops, s, pre) && |pre| <= |ops| && ops[|pre| - 1].Back?
    requires bbeg + ct <= |s.text|
    requires OpFine(ops, |pre| - 1) && Bracket(ops, s, pre, ops[|pre| - 1].k) == s.text[bbeg..bbeg + ct]
    ensures 0 <= pre[|pre| - 1] <= |s.text|
    ensures var ok := SameChars(s.text, bbeg, pre[|pre| - 1], ct);
            var b := pre[|pre| - 1] + ct;
            (ok ==> Partial(ops, s, pre + [b]) && Settles(ops, s, pre + [b], pre))
            && (!ok ==> NoEvent(ops, s, pre))
  {
    var i := |pre| - 1;
    Monotone(ops, s, pre, i, i);
    SameCharsIsEqual(s.text, bbeg, pre[i], ct);
    forall c
      ensures Fits(ops, s, pre + [c], i) <==> SameChars(s.text, bbeg, pre[i], ct) && c == pre[i] + ct
    {
      BracketLocal(ops, s, pre, c, ops[i].k);
      if 0 <= pre[i] <= c <= |s.text| && s.text[pre[i]..c] == s.text[bbeg..bbeg + ct] {
        assert c - pre[i] == |s.text[pre[i]..c]| == ct;
      }
    }
    MoveOn(ops, s, pre, pre[i] + ct, SameChars(s.text, bbeg, pre[i], ct));
  }

  // ----- how the slots follow the cuts

  lemma SlotsPrefix(ops: seq<Op>, cuts: seq<int>, longer: seq<int>, bras: seq<int>, brae: seq<int>)
    requires cuts <= longer && SlotsHold(ops, longer, bras, brae)
    ensures SlotsHold(ops, cuts, bras, brae)
  {
  }

  /** Writing the slot of the bracket that stands here disturbs no bracket to the left. */
  lemma SlotsExtend(ops: seq<Op>, cuts: seq<int>, b: int, bras: seq<int>, brae: seq<int>)
    requires 1 <= |cuts| <= |ops| && Fine(ops) && SlotsHold(ops, cuts, bras, brae)
    ensures var i := |cuts| - 1;
            match ops[i]
            case Open(k) => k < NBRA && SlotsHold(ops, cuts + [b], bras[k as int := cuts[i]], brae)
            case Close(k) => k < NBRA && SlotsHold(ops, cuts + [b], bras, brae[k as int := cuts[i]])
            case _ => SlotsHold(ops, cuts + [b], bras, brae)
  {
    assert OpFine(ops, |cuts| - 1);
    forall j | 0 <= j < |cuts| - 1
      ensures OpFine(ops, j)
    {
    }
  }

  // ----- copies of a bracket's text

  lemma {:induction false} CopiesAppend(text: seq<byte>, lo: nat, hi: nat, w: seq<byte>)
    requires w != [] && lo <= hi && hi + |w| <= |text| && Copies(text, lo, hi, w)
    requires text[hi..hi + |w|] == w
    ensures Copies(text, lo, hi + |w|, w)
    decreases hi - lo
  {
    if lo < hi {
      CopiesAppend(text, lo + |w|, hi, w);
    }
  }

  lemma {:induction false} CopiesDrop(text: seq<byte>, lo: nat, hi: nat, w: seq<byte>)
    requires lo < hi <= |text| && Copies(text, lo, hi, w)
    ensures lo <= hi - |w| && Copies(text, lo, hi - |w|, w)
    decreases hi - lo
  {
    if lo + |w| < hi {
      CopiesDrop(text, lo + |w|, hi, w);
    }
  }

  /** Of two runs of copies the longer goes on with a copy where the shorter ends. */
  lemma {:induction false} CopiesNext(text: seq<byte>, lo: nat, top: nat, hi: nat, w: seq<byte>)
    requires lo <= top < hi <= |text| && Copies(text, lo, hi, w) && Copies(text, lo, top, w)
    ensures top + |w| <= hi && text[top..top + |w|] == w
    decreases top - lo
  {
    if lo < top {
      CopiesNext(text, lo + |w|, top, hi, w);
    }
  }

  /** `lp` ends a run of copies of w from the last cut of `pre`. */
  ghost predicate RunsTo(ops: seq<Op>, s: Subject, pre: seq<int>, w: seq<byte>, lp: int)
    requires |pre| >= 1
  {
    0 <= pre[|pre| - 1] <= lp <= |s.text| && Copies(s.text, pre[|pre| - 1], lp, w)
  }

  lemma RunsFurther(ops: seq<Op>, s: Subject, pre: seq<int>, w: seq<byte>, lp: int)
    requires |pre| >= 1 && RunsTo(ops, s, pre, w, lp) && w != []
    requires lp + |w| <= |s.text| && s.text[lp..lp + |w|] == w
    ensures RunsTo(ops, s, pre, w, lp + |w|)
  {
    CopiesAppend(s.text, pre[|pre| - 1], lp, w);
  }

  lemma RunsBack(ops: seq<Op>, s: Subject, pre: seq<int>, w: seq<byte>, lp: int)
    requires |pre| >= 1 && RunsTo(ops, s, pre, w, lp) && w != [] && lp > pre[|pre| - 1]
    ensures RunsTo(ops, s, pre, w, lp - |w|)
  {
    CopiesDrop(s.text, pre[|pre| - 1], lp, w);
  }

  /** The bracket a starred reference looks at. */
  ghost predicate Looks(ops: seq<Op>, s: Subject, pre: seq<int>, w: seq<byte>)
    requires Fine(ops) && Partial(ops, s, pre)
  {
    |pre| <= |ops| && ops[|pre| - 1].BackMany? && OpFine(ops, |pre| - 1)
    && Bracket(ops, s, pre, ops[|pre| - 1].k) == w
  }

  /** After the longest run of copies, only the ends of shorter runs are ways on. */
  lemma CopiesEnd(ops: seq<Op>, s: Subject, pre: seq<int>, w: seq<byte>, top: int, c: int)
    requires Fine(ops) && Partial(ops, s, pre) && Looks(ops, s, pre, w) && w != []
    requires RunsTo(ops, s, pre, w, top) && c > top
    requires top + |w| > |s.text| || s.text[top..top + |w|] != w || c < top + |w|
    ensures NoEvent(ops, s, pre + [c])
  {
    var a := pre[|pre| - 1];
    BracketLocal(ops, s, pre, c, ops[|pre| - 1].k);
    if c <= |s.text| && Copies(s.text, a, c, w) {
      CopiesNext(s.text, a, top, c, w);
    }
    Misfit(ops, s, pre, c);
  }

  /** The scan back over the copies stands at lp, everything above it tried. */
  ghost predicate Copying(ops: seq<Op>, s: Subject, pre: seq<int>, w: seq<byte>, lp: int)
    requires Fine(ops) && Partial(ops, s, pre)
  {
    if lp >= pre[|pre| - 1] then RunsTo(ops, s, pre, w, lp) && NoneFrom(ops, s, pre, lp + 1)
    else NoEvent(ops, s, pre)
  }

  lemma CopiesTop(ops: seq<Op>, s: Subject, pre: seq<int>, w: seq<byte>, top: int)
    requires Fine(ops) && Partial(ops, s, pre) && Looks(ops, s, pre, w) && w != []
    requires RunsTo(ops, s, pre, w, top)
    requires top + |w| > |s.text| || s.text[top..top + |w|] != w
    ensures Copying(ops, s, pre, w, top)
  {
    forall c | c >= top + 1
      ensures NoEvent(ops, s, pre + [c])
    {
      CopiesEnd(ops, s, pre, w, top, c);
    }
  }

  /** One copy fewer, or none left. */
  lemma CopiesLess(ops: seq<Op>, s: Subject, pre: seq<int>, w: seq<byte>, lp: int)
    requires Fine(ops) && Partial(ops, s, pre) && Looks(ops, s, pre, w) && w != []
    requires RunsTo(ops, s, pre, w, lp) && NoneFrom(ops, s, pre, lp)
    ensures Copying(ops, s, pre, w, lp - |w|)
  {
    if lp > pre[|pre| - 1] {
      RunsBack(ops, s, pre, w, lp);
      forall c | c >= lp - |w| + 1
        ensures NoEvent(ops, s, pre + [c])
      {
        if c < lp {
          CopiesEnd(ops, s, pre, w, lp - |w|, c);
        }
      }
    } else {
      CopiesNone(ops, s, pre, w);
    }
  }

  lemma CopiesNone(ops: seq<Op>, s: Subject, pre: seq<int>, w: seq<byte>)
    requires Fine(ops) && Partial(ops, s, pre) && Looks(ops, s, pre, w) && w != []
    requires NoneFrom(ops, s, pre, pre[|pre| - 1])
    ensures NoEvent(ops, s, pre)
  {
    forall c | c < pre[|pre| - 1]
      ensures NoEvent(ops, s, pre + [c])
    {
      Misfit(ops, s, pre, c);
    }
    assert forall c :: NoEvent(ops, s, pre + [c]);
    Exhausted(ops, s, pre);
  }

  // ----- one instruction at a time

  lemma Opcode(code: seq<byte>, ep: nat, op: Op)
    requires Has(code, ep, Enc(op))
    ensures ep < |code| && code[ep] == Enc(op)[0] && |Enc(op)| > 0
    ensures HasAtom(op) ==> Enc(op)[0] == AtomOp(op.a) + Kind(op)
  {
    hide AtomArg, AtomOp;
    assert code[ep + 0] == Enc(op)[0];
  }

  /** The opcode tells the operator. */
  lemma Decode(code: seq<byte>, ep: nat, ops: seq<Op>, i: nat)
    requires i <= |ops| && Holds(code, ep, ops, i)
    ensures ep < |code|
    ensures i == |ops| <==> code[ep] == CCEOF
    ensures i < |ops| ==> (ops[i].One? <==> IsAtomOp(code[ep]))
    ensures i < |ops| ==> (ops[i].Many? <==> code[ep] > 0 && IsAtomOp(code[ep] - STAR))
    ensures i < |ops| ==> (ops[i].Between? <==> code[ep] >= 3 && IsAtomOp(code[ep] - RNGE))
    ensures i < |ops| ==> (ops[i].Dollar? <==> code[ep] == CDOL)
    ensures i < |ops| ==> (ops[i].Open? <==> code[ep] == CBRA)
    ensures i < |ops| ==> (ops[i].Close? <==> code[ep] == CKET)
    ensures i < |ops| ==> (ops[i].Back? <==> code[ep] == CBACK)
    ensures i < |ops| ==> (ops[i].BackMany? <==> code[ep] == CBACK + STAR)
  {
    hide AtomArg, Has;
    if i < |ops| {
      Opcode(code, ep, ops[i]);
    }
  }

  lemma Parts(code: seq<byte>, ep: nat, op: byte, arg: seq<byte>, tail: seq<byte>)
    requires Has(code, ep, [op] + arg + tail)
    ensures code[ep] == op && Has(code, ep + 1, arg) && Has(code, ep + 1 + |arg|, tail)
  {
    HasSplit(code, ep, [op] + arg, tail);
    HasSplit(code, ep, [op], arg);
    assert code[ep + 0] == [op][0];
  }

  lemma Instruction(code: seq<byte>, ep: nat, ops: seq<Op>, i: nat, op: byte, arg: seq<byte>, tail: seq<byte>)
    requires i < |ops| && Holds(code, ep, ops, i) && Enc(ops[i]) == [op] + arg + tail
    ensures ep < |code| && code[ep] == op && Has(code, ep + 1, arg) && Has(code, ep + 1 + |arg|, tail)
    ensures Holds(code, ep + 1 + |arg| + |tail|, ops, i + 1)
  {
    hide Enc, Has;
    Parts(code, ep, op, arg, tail);
    assert |Enc(ops[i])| == 1 + |arg| + |tail|;
  }

  lemma EncShape(op: Op)
    requires HasAtom(op)
    ensures AtomOp(op.a) + Kind(op) < 256
    ensures Enc(op) == [AtomOp(op.a) + Kind(op)] + AtomArg(op.a) + Suffix(op)
  {
    hide AtomArg;
  }

  /** Where the operands are, and where the next instruction is. */
  lemma AtomOperands(code: seq<byte>, ep: nat, ops: seq<Op>, i: nat) returns (op: byte, arg: seq<byte>, tail: seq<byte>)
    requires i < |ops| && Holds(code, ep, ops, i) && HasAtom(ops[i])
    ensures op == AtomOp(ops[i].a) + Kind(ops[i]) && arg == AtomArg(ops[i].a) && tail == Suffix(ops[i])
    ensures ep < |code| && code[ep] == op && Has(code, ep + 1, arg) && Has(code, ep + 1 + |arg|, tail)
    ensures Holds(code, ep + 1 + |arg| + |tail|, ops, i + 1)
  {
    EncShape(ops[i]);
    op, arg, tail := AtomOp(ops[i].a) + Kind(ops[i]), AtomArg(ops[i].a), Suffix(ops[i]);
    hide AtomOp, AtomArg, Enc, Kind, Suffix, Holds, Has;
    Instruction(code, ep, ops, i, op, arg, tail);
  }

  lemma OneOperands(code: seq<byte>, ep: nat, ops: seq<Op>, i: nat, a: Atom)
    requires i < |ops| && Holds(code, ep, ops, i) && ops[i] == One(a)
    ensures ep < |code| && code[ep] == AtomOp(a) && Has(code, ep + 1, AtomArg(a))
    ensures Holds(code, ep + 1 + |AtomArg(a)|, ops, i + 1)
  {
    hide AtomOp, AtomArg, Enc, Holds, Has;
    var op, arg, tail := AtomOperands(code, ep, ops, i);
  }

  lemma ManyOperands(code: seq<byte>, ep: nat, ops: seq<Op>, i: nat, a: Atom)
    requires i < |ops| && Holds(code, ep, ops, i) && ops[i] == Many(a)
    ensures ep < |code| && code[ep] == AtomOp(a) + STAR && Has(code, ep + 1, AtomArg(a))
    ensures Holds(code, ep + 1 + |AtomArg(a)|, ops, i + 1)
  {
    hide AtomOp, AtomArg, Enc, Holds, Has;
    var op, arg, tail := AtomOperands(code, ep, ops, i);
  }

  lemma BetweenOperands(code: seq<byte>, ep: nat, ops: seq<Op>, i: nat, a: Atom, lo: byte, hi: byte)
    requires i < |ops| && Holds(code, ep, ops, i) && ops[i] == Between(a, lo, hi)
    ensures ep < |code| && code[ep] == AtomOp(a) + RNGE && Has(code, ep + 1, AtomArg(a))
    ensures Has(code, ep + 1 + |AtomArg(a)|, [lo, hi])
    ensures Holds(code, ep + 1 + |AtomArg(a)| + 2, ops, i + 1)
  {
    hide AtomOp, AtomArg, Enc, Holds, Has;
    var op, arg, tail := AtomOperands(code, ep, ops, i);
  }

  lemma Tests(code: seq<byte>, ep: nat, a: Atom)
    requires AtomFine(a) && Has(code, ep, AtomArg(a))
    ensures IsAtomOp(AtomOp(a)) && |AtomArg(a)| == ArgSize(AtomOp(a))
    ensures forall c :: Test(AtomOp(a), code, ep, c) == Takes(a, c)
  {
    AtomShape(a);
    forall c
      ensures Test(AtomOp(a), code, ep, c) == Takes(a, c)
    {
      TestTakes(a, code, ep, c);
    }
  }

  lemma EncBracket(op: Op)
    requires op.Open? || op.Close? || op.Back? || op.BackMany?
    ensures |Enc(op)| == 2 && Enc(op)[1] == op.k
  {
  }

  /** A bracket or back-reference instruction names its bracket in the next byte. */
  lemma BracketOperand(code: seq<byte>, ep: nat, ops: seq<Op>, i: nat)
    requires i < |ops| && Holds(code, ep, ops, i)
    requires ops[i].Open? || ops[i].Close? || ops[i].Back? || ops[i].BackMany?
    ensures ep + 2 <= |code| && code[ep + 1] == ops[i].k && Holds(code, ep + 2, ops, i + 1)
  {
    EncBracket(ops[i]);
    hide AtomOp, AtomArg, Enc;
    assert code[ep + 1] == Enc(ops[i])[1];
  }

  lemma DollarHasNone(code: seq<byte>, ep: nat, ops: seq<Op>, i: nat)
    requires i < |ops| && Holds(code, ep, ops, i) && ops[i].Dollar?
    ensures Holds(code, ep + 1, ops, i + 1)
  {
  }

  /** The slots of a closed bracket give its text, from the attempt now in progress. */
  lemma SlotsGiveBracket(ops: seq<Op>, s: Subject, pre: seq<int>, k: byte, bras: seq<int>, brae: seq<int>)
    requires Fine(ops) && Partial(ops, s, pre) && SlotsHold(ops, pre, bras, brae)
    requires k < NBRA && Refers(ops, k, |pre| - 1)
    ensures 0 <= bras[k] <= brae[k] <= |s.text|
    ensures bras[k] == pre[Place(ops, Open(k))] && brae[k] == pre[Place(ops, Close(k))]
    ensures Bracket(ops, s, pre, k) == s.text[bras[k]..brae[k]]
  {
    Monotone(ops, s, pre, Place(ops, Open(k)), Place(ops, Close(k)));
  }

  lemma BracketLocal(ops: seq<Op>, s: Subject, pre: seq<int>, b: int, k: byte)
    requires Refers(ops, k, |pre|)
    ensures Bracket(ops, s, pre + [b], k) == Bracket(ops, s, pre, k)
  {
  }

  /** What an answer says about the search beyond `pre`, and how the registers are left: on a match,
      `e` is the first full match, `loc2` its end and the slots its brackets; on failure the slots
      of the brackets to the left are as they were. */
  ghost predicate Verdict(r: Answer, e: seq<int>, ops: seq<Op>, s: Subject, pre: seq<int>,
                          loc2: int, bras: seq<int>, brae: seq<int>)
    requires Fine(ops)
  {
    match r
    case Yes => First(ops, s, pre, e) && Full(ops, s, e) && loc2 == e[|ops|] && SlotsHold(ops, e, bras, brae)
    case No => NoEvent(ops, s, pre) && SlotsHold(ops, pre, bras, brae)
    case Hangs => First(ops, s, pre, e) && Stuck(ops, s, e)
  }

  ghost predicate NoneFrom(ops: seq<Op>, s: Subject, pre: seq<int>, b: int)
    requires Fine(ops)
  {
    forall c :: c >= b ==> NoEvent(ops, s, pre + [c])
  }

  /** The machine stands at operator |pre| - 1 with its registers as `pre` says. */
  ghost predicate At(code: seq<byte>, lp: int, ep: nat, ops: seq<Op>, s: Subject, pre: seq<int>,
                     bras: seq<int>, brae: seq<int>)
  {
    Standing(code, ep, ops, s, pre) && lp == pre[|pre| - 1] && 0 <= lp <= |s.text|
    && SlotsHold(ops, pre, bras, brae)
  }

  /** A repeated instruction is about to choose the next cut; the next instruction is at ep. */
  ghost predicate Poised(code: seq<byte>, ep: nat, ops: seq<Op>, s: Subject, pre: seq<int>,
                         bras: seq<int>, brae: seq<int>)
  {
    Fine(ops) && IsText(s.text) && Partial(ops, s, pre) && |pre| <= |ops| && Repeats(ops[|pre| - 1])
    && Holds(code, ep, ops, |pre|) && SlotsHold(ops, pre, bras, brae)
  }

  /** What an instruction with at most one way on does. */
  ghost predicate Stepped(ok: bool, code: seq<byte>, lp: int, ep: nat, ops: seq<Op>, s: Subject, pre: seq<int>,
                          bras: seq<int>, brae: seq<int>)
    requires Fine(ops)
  {
    if ok then
      At(code, lp, ep, ops, s, pre + [lp], bras, brae) && Settles(ops, s, pre + [lp], pre)
    else
      NoEvent(ops, s, pre) && SlotsHold(ops, pre, bras, brae)
  }

  /** From the verdict on one value of the next cut to the verdict on `pre`. */
  lemma StarOut(r: Answer, e: seq<int>, ops: seq<Op>, s: Subject, pre: seq<int>, b: int,
                loc2: int, bras: seq<int>, brae: seq<int>)
    requires Fine(ops) && Partial(ops, s, pre) && |pre| <= |ops| && !Stuck(ops, s, pre)
    requires Verdict(r, e, ops, s, pre + [b], loc2, bras, brae) && NoneFrom(ops, s, pre, b + 1)
    ensures r == No ==> NoneFrom(ops, s, pre, b) && SlotsHold(ops, pre, bras, brae)
    ensures r != No ==> Verdict(r, e, ops, s, pre, loc2, bras, brae)
  {
    if r == No {
      SlotsPrefix(ops, pre, pre + [b], bras, brae);
    } else {
      Descend(ops, s, pre, b, e);
    }
  }

  lemma VerdictBack(r: Answer, e: seq<int>, ops: seq<Op>, s: Subject, pre: seq<int>, pre0: seq<int>,
                    loc2: int, bras: seq<int>, brae: seq<int>)
    requires Fine(ops) && Verdict(r, e, ops, s, pre, loc2, bras, brae)
    requires pre0 <= pre && Settles(ops, s, pre, pre0)
    ensures Verdict(r, e, ops, s, pre0, loc2, bras, brae)
  {
  }

  predicate Repeats(op: Op) {
    op.Many? || op.Between? || op.BackMany?
  }

  predicate RepeatsOp(b: byte) {
    b == CBACK + STAR || (b > 0 && IsAtomOp(b - STAR)) || (b >= 3 && IsAtomOp(b - RNGE))
  }

  /** What kind of instruction stands here. */
  lemma Begin(code: seq<byte>, ep: nat, ops: seq<Op>, s: Subject, pre: seq<int>)
    requires Standing(code, ep, ops, s, pre)
    ensures ep < |code|
    ensures code[ep] == CCEOF <==> |pre| == |ops| + 1
    ensures |pre| <= |ops| ==> (RepeatsOp(code[ep]) <==> Repeats(ops[|pre| - 1]))
  {
    Decode(code, ep, ops, |pre| - 1);
  }

  lemma HasPair(code: seq<byte>, ep: nat, lo: byte, hi: byte)
    requires Has(code, ep, [lo, hi])
    ensures ep + 1 < |code| && code[ep] == lo && code[ep + 1] == hi
  {
    assert code[ep + 0] == [lo, hi][0] && code[ep + 1] == [lo, hi][1];
  }

  /** The state in which `star:` calls `advance`. */
  lemma StarInto(code: seq<byte>, ep: nat, ops: seq<Op>, s: Subject, pre: seq<int>, b: int,
                 bras: seq<int>, brae: seq<int>)
    requires Poised(code, ep, ops, s, pre, bras, brae) && Fits(ops, s, pre + [b], |pre| - 1)
    ensures At(code, b, ep, ops, s, pre + [b], bras, brae)
  {
    PartialExtend(ops, s, pre, b);
    SlotsExtend(ops, pre, b, bras, brae);
  }

  /** A back-reference read through the slots. */
  lemma BackStep(ops: seq<Op>, s: Subject, pre: seq<int>, k: byte, bras: seq<int>, brae: seq<int>)
    requires Fine(ops) && IsText(s.text) && Partial(ops, s, pre) && |pre| <= |ops|
    requires ops[|pre| - 1] == Back(k) && SlotsHold(ops, pre, bras, brae)
    ensures k < NBRA && 0 <= bras[k] <= brae[k] <= |s.text| && 0 <= pre[|pre| - 1] <= |s.text|
    ensures var ok := SameChars(s.text, bras[k], pre[|pre| - 1], brae[k] - bras[k]);
            var b := pre[|pre| - 1] + (brae[k] - bras[k]);
            (ok ==> Partial(ops, s, pre + [b]) && b <= |s.text| && Settles(ops, s, pre + [b], pre)
                    && SlotsHold(ops, pre + [b], bras, brae))
            && (!ok ==> NoEvent(ops, s, pre))
  {
    assert OpFine(ops, |pre| - 1);
    SlotsGiveBracket(ops, s, pre, k, bras, brae);
    BackMoves(ops, s, pre, bras[k], brae[k] - bras[k]);
    var b := pre[|pre| - 1] + (brae[k] - bras[k]);
    if SameChars(s.text, bras[k], pre[|pre| - 1], brae[k] - bras[k]) {
      Monotone(ops, s, pre + [b], |pre|, |pre|);
      SlotsExtend(ops, pre, b, bras, brae);
    }
  }

  /** What the slots tell a starred back-reference. */
  lemma BackManyStep(ops: seq<Op>, s: Subject, pre: seq<int>, k: byte, bras: seq<int>, brae: seq<int>)
    requires Fine(ops) && IsText(s.text) && Partial(ops, s, pre) && |pre| <= |ops|
    requires ops[|pre| - 1] == BackMany(k) && SlotsHold(ops, pre, bras, brae)
    ensures k < NBRA && 0 <= bras[k] <= brae[k] <= |s.text|
    ensures Looks(ops, s, pre, s.text[bras[k]..brae[k]])
    ensures RunsTo(ops, s, pre, s.text[bras[k]..brae[k]], pre[|pre| - 1])
    ensures bras[k] == brae[k] <==> Stuck(ops, s, pre)
  {
    assert OpFine(ops, |pre| - 1);
    SlotsGiveBracket(ops, s, pre, k, bras, brae);
    Monotone(ops, s, pre, |pre| - 1, |pre| - 1);
  }

  lemma CopyFits(ops: seq<Op>, s: Subject, pre: seq<int>, w: seq<byte>, lp: int)
    requires Fine(ops) && Partial(ops, s, pre) && Looks(ops, s, pre, w) && RunsTo(ops, s, pre, w, lp)
    ensures Fits(ops, s, pre + [lp], |pre| - 1)
  {
    BracketLocal(ops, s, pre, lp, ops[|pre| - 1].k);
  }

  class Regexp {
    const bras: array<int>
    const brae: array<int>
    var loc1: int
    var loc2: int
    var locs: int
    var circf: bool
    var nbra: nat
    var sed: bool
    var nodelim: bool
    var low: int
    var size: int

    constructor ()
      ensures fresh(bras) && fresh(brae) && bras.Length == NBRA && brae.Length == NBRA && bras != brae
    {
      bras := new int[NBRA];
      brae := new int[NBRA];
      loc1, loc2, locs := 0, 0, -1;
      circf, sed, nodelim := false, false, false;
      nbra, low, size := 0, 0, 0;
    }

    ghost predicate Shape()
      reads this
    {
      bras.Length == NBRA && brae.Length == NBRA && bras != brae
    }

    /** The scan of a starred one-character matcher: lp ends one past the first refusal. */
    method ScanStar(code: seq<byte>, text: seq<byte>, base: byte, lp0: nat, ep: nat, ghost a: Atom)
      returns (lp: nat)
      requires IsText(text) && lp0 <= |text| && AtomFine(a)
      requires IsAtomOp(base) && ep + ArgSize(base) <= |code|
      requires forall c :: Test(base, code, ep, c) == Takes(a, c)
      ensures lp == RunEnd(a, text, lp0, |text|) + 1
    {
      lp := lp0;
      while Test(base, code, ep, CharAt(text, lp))
        invariant lp0 <= lp <= |text| && Run(a, text, lp0, lp)
        decreases |text| - lp
      {
        lp := lp + 1;
      }
      RunEndIs(a, text, lp0, |text|, lp);
      lp := lp + 1;
    }

    /** `getrnge`. */
    method Getrnge(code: seq<byte>, at: nat)
      requires at + 1 < |code|
      modifies this`low, this`size
      ensures low == code[at]
      ensures size == if code[at + 1] == 255 then 20000 else code[at + 1] - low
    {
      low := code[at];
      size := if code[at + 1] == 255 then 20000 else code[at + 1] - low;
    }

    /** The lower number of an interval: exactly `low` characters. */
    method ScanLow(code: seq<byte>, text: seq<byte>, base: byte, lp0: nat, ep: nat, ghost a: Atom)
      returns (ok: bool, lp: nat)
      requires IsText(text) && lp0 <= |text| && AtomFine(a) && low >= 0
      requires IsAtomOp(base) && ep + ArgSize(base) <= |code|
      requires forall c :: Test(base, code, ep, c) == Takes(a, c)
      modifies this`low
      ensures ok == Run(a, text, lp0, lp0 + old(low))
      ensures ok ==> lp == lp0 + old(low)
    {
      lp := lp0;
      while true
        invariant 0 <= low <= old(low) && lp == lp0 + (old(low) - low) && Run(a, text, lp0, lp)
        decreases low
      {
        low := low - 1;
        if low < 0 {
          break;
        }
        lp := lp + 1;
        if !Test(base, code, ep, CharAt(text, lp - 1)) {
          assert lp - 1 == |text| || !Takes(a, text[lp - 1]);
          return false, lp;
        }
      }
      ok := true;
    }

    /** At most `size` more characters; lp ends one past the last position to go on from. */
    method ScanMore(code: seq<byte>, text: seq<byte>, base: byte, curlp: nat, ep: nat, ghost a: Atom)
      returns (lp: nat)
      requires IsText(text) && curlp <= |text| && AtomFine(a) && size >= 0
      requires IsAtomOp(base) && ep + ArgSize(base) <= |code|
      requires forall c :: Test(base, code, ep, c) == Takes(a, c)
      modifies this`size
      ensures lp == RunEnd(a, text, curlp, old(size)) + 1
    {
      lp := curlp;
      while true
        invariant 0 <= size <= old(size) && lp == curlp + (old(size) - size) && Run(a, text, curlp, lp)
        decreases size
      {
        size := size - 1;
        if size < 0 {
          break;
        }
        lp := lp + 1;
        if !Test(base, code, ep, CharAt(text, lp - 1)) {
          RunEndIs(a, text, curlp, old(size), lp - 1);
          break;
        }
      }
      if size < 0 {
        RunEndIs(a, text, curlp, old(size), lp);
        lp := lp + 1;
      }
    }

    /** The instructions that leave at most one way on. */
    method Simple(code: seq<byte>, text: seq<byte>, lp0: nat, ep0: nat,
                  ghost ops: seq<Op>, ghost pre: seq<int>)
      returns (ok: bool, lp: nat, ep: nat)
      requires Shape() && |pre| <= |ops|
      requires At(code, lp0, ep0, ops, Subject(text, locs), pre, bras[..], brae[..])
      requires ep0 < |code|
      requires code[ep0] == CDOL || code[ep0] == CBRA || code[ep0] == CKET || code[ep0] == CBACK
      modifies bras, brae
      ensures Stepped(ok, code, lp, ep, ops, Subject(text, locs), pre, bras[..], brae[..])
    {
      hide Fits, First, SameChars, RunEnd, Takes, AtomArg, Enc, NoEvent;
      ghost var s, i := Subject(text, locs), |pre| - 1;
      ok, lp, ep := true, lp0, ep0 + 1;
      Decode(code, ep0, ops, i);
      SlotsExtend(ops, pre, lp0, bras[..], brae[..]);
      if code[ep0] == CDOL {
        NoWidthMoves(ops, s, pre);
        DollarHasNone(code, ep0, ops, i);
        ok := CharAt(text, lp) == NUL;
      } else if code[ep0] == CBRA {
        NoWidthMoves(ops, s, pre);
        BracketOperand(code, ep0, ops, i);
        bras[code[ep]] := lp;
        ep := ep + 1;
      } else if code[ep0] == CKET {
        NoWidthMoves(ops, s, pre);
        BracketOperand(code, ep0, ops, i);
        brae[code[ep]] := lp;
        ep := ep + 1;
      } else {
        ok, lp, ep := BackReference(code, text, lp0, ep0, ops, pre);
      }
    }

    method BackReference(code: seq<byte>, text: seq<byte>, lp0: nat, ep0: nat,
                         ghost ops: seq<Op>, ghost pre: seq<int>)
      returns (ok: bool, lp: nat, ep: nat)
      requires Shape() && |pre| <= |ops|
      requires At(code, lp0, ep0, ops, Subject(text, locs), pre, bras[..], brae[..])
      requires ep0 < |code| && code[ep0] == CBACK
      ensures Stepped(ok, code, lp, ep, ops, Subject(text, locs), pre, bras[..], brae[..])
    {
      hide Fits, Stuck, NoEvent, First, Enc, SameChars, RunEnd, Takes, AtomArg, Fine, OpFine, IsThere;
      ghost var s, i := Subject(text, locs), |pre| - 1;
      Decode(code, ep0, ops, i);
      BracketOperand(code, ep0, ops, i);
      ep := ep0 + 1;
      BackStep(ops, s, pre, code[ep], bras[..], brae[..]);
      var bbeg := bras[code[ep]];
      var ct := brae[code[ep]] - bbeg;
      ep := ep + 1;
      ok := SameChars(text, bbeg, lp0, ct);
      lp := lp0 + ct;
    }

    /** `star:` -- try the positions below lp0 down to curlp, longest first. */
    method Star(code: seq<byte>, text: seq<byte>, lp0: nat, curlp: nat, ep: nat,
                ghost ops: seq<Op>, ghost pre: seq<int>)
      returns (r: Answer, ghost e: seq<int>)
      requires Shape() && Poised(code, ep, ops, Subject(text, locs), pre, bras[..], brae[..])
      requires HasAtom(ops[|pre| - 1]) && curlp < lp0
      requires Choices(ops, Subject(text, locs), pre, curlp, lp0 - 1)
      modifies this`loc2, this`low, this`size, bras, brae
      ensures Verdict(r, e, ops, Subject(text, locs), pre, loc2, bras[..], brae[..])
      decreases |ops| - |pre|, 2
    {
      hide Fits, NoEvent, First, Enc, SameChars, RunEnd, Takes, AtomArg, Fine, OpFine;
      ghost var s := Subject(text, locs);
      var lp: int := lp0;
      e := [];
      ChoicesAbove(ops, s, pre, curlp, lp0 - 1);
      while lp > curlp
        invariant curlp <= lp <= lp0 && Poised(code, ep, ops, s, pre, bras[..], brae[..])
        invariant !(lp <= locs <= lp0 - 1)
        invariant NoneFrom(ops, s, pre, lp)
        decreases lp
      {
        lp := lp - 1;
        if lp == locs {
          ChoicesBlocked(ops, s, pre, curlp, lp0 - 1, lp + 1);
          return No, [];
        }
        StarInto(code, ep, ops, s, pre, lp, bras[..], brae[..]);
        r, e := Advance(code, text, lp, ep, ops, pre + [lp]);
        StarOut(r, e, ops, s, pre, lp, loc2, bras[..], brae[..]);
        if r != No {
          return;
        }
      }
      ChoicesBelow(ops, s, pre, curlp, lp0 - 1);
      r := No;
    }

    /** `case CBACK | STAR` from the point where its operands are read. */
    method BackStar(code: seq<byte>, text: seq<byte>, curlp: nat, bbeg: nat, ct: nat, ep: nat,
                    ghost ops: seq<Op>, ghost pre: seq<int>)
      returns (r: Answer, ghost e: seq<int>)
      requires Shape() && Poised(code, ep, ops, Subject(text, locs), pre, bras[..], brae[..])
      requires bbeg + ct <= |text| && ct > 0 && curlp == pre[|pre| - 1]
      requires Looks(ops, Subject(text, locs), pre, text[bbeg..bbeg + ct])
      requires RunsTo(ops, Subject(text, locs), pre, text[bbeg..bbeg + ct], curlp)
      modifies this`loc2, this`low, this`size, bras, brae
      ensures Verdict(r, e, ops, Subject(text, locs), pre, loc2, bras[..], brae[..])
      decreases |ops| - |pre|, 2
    {
      hide Fits, NoEvent, First, Enc, SameChars, RunEnd, Takes, AtomArg;
      ghost var s, w := Subject(text, locs), text[bbeg..bbeg + ct];
      var lp: int := ScanCopies(text, curlp, bbeg, ct, ops, s, pre);
      e := [];
      while lp >= curlp
        invariant Poised(code, ep, ops, s, pre, bras[..], brae[..])
        invariant Copying(ops, s, pre, w, lp)
        decreases lp - curlp
      {
        CopyFits(ops, s, pre, w, lp);
        StarInto(code, ep, ops, s, pre, lp, bras[..], brae[..]);
        r, e := Advance(code, text, lp, ep, ops, pre + [lp]);
        StarOut(r, e, ops, s, pre, lp, loc2, bras[..], brae[..]);
        if r != No {
          return;
        }
        CopiesLess(ops, s, pre, w, lp);
        lp := lp - ct;
      }
      r := No;
    }

    /** `while(ecmp(bbeg, lp, ct)) lp += ct;` */
    method ScanCopies(text: seq<byte>, curlp: nat, bbeg: nat, ct: nat,
                      ghost ops: seq<Op>, ghost s: Subject, ghost pre: seq<int>)
      returns (lp: nat)
      requires Fine(ops) && IsText(text) && s.text == text && Partial(ops, s, pre)
      requires bbeg + ct <= |text| && ct > 0 && Looks(ops, s, pre, text[bbeg..bbeg + ct])
      requires RunsTo(ops, s, pre, text[bbeg..bbeg + ct], curlp)
      ensures lp >= curlp && Copying(ops, s, pre, text[bbeg..bbeg + ct], lp)
    {
      hide Fits, Stuck, NoEvent, First, Enc, SameChars, RunEnd, Takes, AtomArg, Fine, OpFine, IsThere;
      ghost var w := text[bbeg..bbeg + ct];
      lp := curlp;
      SameCharsIsEqual(text, bbeg, lp, ct);
      while SameChars(text, bbeg, lp, ct)
        invariant curlp <= lp <= |text| && RunsTo(ops, s, pre, w, lp)
        invariant SameChars(text, bbeg, lp, ct) == (lp + ct <= |text| && text[lp..lp + ct] == w)
        decreases |text| - lp
      {
        RunsFurther(ops, s, pre, w, lp);
        lp := lp + ct;
        SameCharsIsEqual(text, bbeg, lp, ct);
      }
      CopiesTop(ops, s, pre, w, lp);
    }

    /** The repeated instructions: they end the run of `advance`, one way or the other. */
    method Repeated(code: seq<byte>, text: seq<byte>, lp: nat, ep0: nat,
                    ghost ops: seq<Op>, ghost pre: seq<int>)
      returns (r: Answer, ghost e: seq<int>)
      requires Shape() && |pre| <= |ops|
      requires At(code, lp, ep0, ops, Subject(text, locs), pre, bras[..], brae[..])
      requires Repeats(ops[|pre| - 1])
      modifies this`loc2, this`low, this`size, bras, brae
      ensures Verdict(r, e, ops, Subject(text, locs), pre, loc2, bras[..], brae[..])
      decreases |ops| - |pre|, 4
    {
      hide Fits, NoEvent, First, Enc, SameChars, RunEnd, Takes, IsThere;
      ghost var s, i := Subject(text, locs), |pre| - 1;
      Decode(code, ep0, ops, i);
      assert OpFine(ops, i);
      e := [];
      var ep := ep0 + 1;
      if code[ep0] == CBACK + STAR {
        BracketOperand(code, ep0, ops, i);
        BackManyStep(ops, s, pre, code[ep], bras[..], brae[..]);
        var bbeg := bras[code[ep]];
        var ct := brae[code[ep]] - bbeg;
        if ct == 0 {
          // strncmp of no characters always agrees: the scan for copies never ends
          EventIsFirst(ops, s, pre);
          return Hangs, pre;
        }
        r, e := BackStar(code, text, lp, bbeg, ct, ep + 1, ops, pre);
      } else if IsAtomOp(code[ep0] - STAR) {
        ghost var a := ops[i].a;
        ManyOperands(code, ep0, ops, i, a);
        Tests(code, ep, a);
        ManyChoices(ops, s, pre);
        var base := code[ep0] - STAR;
        var end := ScanStar(code, text, base, lp, ep, a);
        r, e := Star(code, text, end, lp, ep + ArgSize(base), ops, pre);
      } else {
        r, e := Interval(code, text, lp, ep0, ops, pre);
      }
    }

    method Interval(code: seq<byte>, text: seq<byte>, lp: nat, ep0: nat,
                    ghost ops: seq<Op>, ghost pre: seq<int>)
      returns (r: Answer, ghost e: seq<int>)
      requires Shape() && |pre| <= |ops|
      requires At(code, lp, ep0, ops, Subject(text, locs), pre, bras[..], brae[..])
      requires ops[|pre| - 1].Between? && OpFine(ops, |pre| - 1)
      modifies this`loc2, this`low, this`size, bras, brae
      ensures Verdict(r, e, ops, Subject(text, locs), pre, loc2, bras[..], brae[..])
      decreases |ops| - |pre|, 3
    {
      hide Fits, NoEvent, First, Enc, SameChars, RunEnd, Takes, IsThere;
      ghost var s, i := Subject(text, locs), |pre| - 1;
      ghost var a := ops[i].a;
      Decode(code, ep0, ops, i);
      BetweenOperands(code, ep0, ops, i, a, ops[i].lo, ops[i].hi);
      var base := code[ep0] - RNGE;
      var ep := ep0 + 1;
      Tests(code, ep, a);
      HasPair(code, ep + ArgSize(base), ops[i].lo, ops[i].hi);
      Getrnge(code, ep + ArgSize(base));
      var ok, curlp := ScanLow(code, text, base, lp, ep, a);
      if !ok {
        TooFew(ops, s, pre);
        return No, [];
      }
      var end := ScanMore(code, text, base, curlp, ep, a);
      BetweenChoices(ops, s, pre, curlp);
      r, e := Star(code, text, end, curlp, ep + ArgSize(base) + 2, ops, pre);
    }

    /** One instruction that leaves at most one way on. */
    method Single(code: seq<byte>, text: seq<byte>, lp0: nat, ep0: nat,
                  ghost ops: seq<Op>, ghost pre: seq<int>)
      returns (ok: bool, lp: nat, ep: nat)
      requires Shape() && |pre| <= |ops|
      requires At(code, lp0, ep0, ops, Subject(text, locs), pre, bras[..], brae[..])
      requires !Repeats(ops[|pre| - 1])
      modifies bras, brae
      ensures Stepped(ok, code, lp, ep, ops, Subject(text, locs), pre, bras[..], brae[..])
    {
      hide Fits, Stuck, NoEvent, First, Enc, SameChars, RunEnd, Takes, AtomArg, Fine, OpFine, IsThere;
      Decode(code, ep0, ops, |pre| - 1);
      if IsAtomOp(code[ep0]) {
        ok, lp, ep := OneChar(code, text, lp0, ep0, ops, pre);
      } else {
        ok, lp, ep := Simple(code, text, lp0, ep0, ops, pre);
      }
    }

    /** `advance`: run the code at ep0 on the text at lp0.  `e` is the row of cuts it ends with. */
    method Advance(code: seq<byte>, text: seq<byte>, lp0: nat, ep0: nat,
                   ghost ops: seq<Op>, ghost pre0: seq<int>)
      returns (r: Answer, ghost e: seq<int>)
      requires Shape() && At(code, lp0, ep0, ops, Subject(text, locs), pre0, bras[..], brae[..])
      modifies this`loc2, this`low, this`size, bras, brae
      ensures Verdict(r, e, ops, Subject(text, locs), pre0, loc2, bras[..], brae[..])
      decreases |ops| + 1 - |pre0|, 1
    {
      hide Fits, Stuck, NoEvent, First, Enc, SameChars, RunEnd, Takes, AtomArg, Fine, OpFine, IsThere;
      ghost var s := Subject(text, locs);
      var lp: nat, ep: nat := lp0, ep0;
      ghost var pre := pre0;
      Begin(code, ep, ops, s, pre);
      while code[ep] != CCEOF
        invariant ep < |code| && At(code, lp, ep, ops, s, pre, bras[..], brae[..])
        invariant pre0 <= pre && Settles(ops, s, pre, pre0)
        decreases |ops| + 1 - |pre|
      {
        Begin(code, ep, ops, s, pre);
        if RepeatsOp(code[ep]) {
          r, e := Repeated(code, text, lp, ep, ops, pre);
          VerdictBack(r, e, ops, s, pre, pre0, loc2, bras[..], brae[..]);
          return;
        }
        var ok;
        ok, lp, ep := Single(code, text, lp, ep, ops, pre);
        if !ok {
          SlotsPrefix(ops, pre0, pre, bras[..], brae[..]);
          return No, [];
        }
        SettlesTransitive(ops, s, pre + [lp as int], pre, pre0);
        pre := pre + [lp];
        Begin(code, ep, ops, s, pre);
      }
      Begin(code, ep, ops, s, pre);
      loc2 := lp;
      r, e := Yes, pre;
      EventIsFirst(ops, s, pre);
    }

    method OneChar(code: seq<byte>, text: seq<byte>, lp0: nat, ep0: nat,
                   ghost ops: seq<Op>, ghost pre: seq<int>)
      returns (ok: bool, lp: nat, ep: nat)
      requires Shape() && |pre| <= |ops|
      requires At(code, lp0, ep0, ops, Subject(text, locs), pre, bras[..], brae[..])
      requires ep0 < |code| && IsAtomOp(code[ep0])
      ensures Stepped(ok, code, lp, ep, ops, Subject(text, locs), pre, bras[..], brae[..])
    {
      hide Fits, First, SameChars, RunEnd, Enc, NoEvent, AtomOp, AtomArg, IsThere;
      ghost var s, i := Subject(text, locs), |pre| - 1;
      Decode(code, ep0, ops, i);
      OneMoves(ops, s, pre);
      OneOperands(code, ep0, ops, i, ops[i].a);
      Tests(code, ep0 + 1, ops[i].a);
      SlotsExtend(ops, pre, lp0 + 1, bras[..], brae[..]);
      ok := Test(code[ep0], code, ep0 + 1, CharAt(text, lp0));
      lp := lp0 + 1;
      ep := ep0 + 1 + ArgSize(code[ep0]);
    }

    /** `step`: the leftmost start, looked for by one of three loops. */
    method Step(code: seq<byte>, text: seq<byte>, p1: nat, p2: nat, ghost ops: seq<Op>)
      returns (r: Answer, ghost e: seq<int>)
      requires Shape() && Fine(ops) && IsText(text) && p1 <= |text| && Holds(code, p2, ops, 0)
      modifies this`loc1, this`loc2, this`low, this`size, bras, brae
      ensures circf ==> Verdict(r, e, ops, Subject(text, locs), [p1 as int], loc2, bras[..], brae[..])
      ensures circf ==> loc1 == p1
      ensures !circf ==> Leftmost(r, e, ops, Subject(text, locs), p1, loc1, loc2)
      ensures r == Yes ==> SlotsHold(ops, e, bras[..], brae[..])
    {
      hide Fits, NoEvent, First, Enc, RunEnd, Takes, AtomArg, Holds, NoneIn;
      ghost var s := Subject(text, locs);
      Decode(code, p2, ops, 0);
      if circf {
        loc1 := p1;
        r, e := Advance(code, text, p1, p2, ops, [p1]);
        return;
      }
      if code[p2] == CCHR {
        r, e := StepChar(code, text, p1, p2, ops);
        return;
      }
      r, e := StepPlain(code, text, p1, p2, ops);
    }

    /** The regular loop. */
    method StepPlain(code: seq<byte>, text: seq<byte>, p1: nat, p2: nat, ghost ops: seq<Op>)
      returns (r: Answer, ghost e: seq<int>)
      requires Shape() && Fine(ops) && IsText(text) && p1 <= |text| && Holds(code, p2, ops, 0)
      modifies this`loc1, this`loc2, this`low, this`size, bras, brae
      ensures Leftmost(r, e, ops, Subject(text, locs), p1, loc1, loc2)
      ensures r == Yes ==> SlotsHold(ops, e, bras[..], brae[..])
    {
      hide Fits, NoEvent, First, Enc, RunEnd, Takes, AtomArg, Holds;
      ghost var s := Subject(text, locs);
      NoNuls(text);
      var p: nat := p1;
      while true
        invariant p1 <= p <= |text| && NoneIn(ops, s, p1, p)
        decreases |text| - p
      {
        r, e := Advance(code, text, p, p2, ops, [p]);
        Tried(r, e, ops, s, p1, p, loc2, bras[..], brae[..]);
        if r != No {
          loc1 := p;
          return;
        }
        if CharAt(text, p) == NUL {
          return;
        }
        p := p + 1;
      }
    }

    /** The scan for the first character of a pattern that begins with an ordinary one. */
    method StepChar(code: seq<byte>, text: seq<byte>, p1: nat, p2: nat, ghost ops: seq<Op>)
      returns (r: Answer, ghost e: seq<int>)
      requires Shape() && Fine(ops) && IsText(text) && p1 <= |text| && Holds(code, p2, ops, 0)
      requires p2 < |code| && code[p2] == CCHR
      modifies this`loc1, this`loc2, this`low, this`size, bras, brae
      ensures Leftmost(r, e, ops, Subject(text, locs), p1, loc1, loc2)
      ensures r == Yes ==> SlotsHold(ops, e, bras[..], brae[..])
    {
      hide Fits, NoEvent, First, Enc, RunEnd, Takes, AtomArg, Holds;
      ghost var s := Subject(text, locs);
      FirstChar(code, p2, ops);
      NoNuls(text);
      var c := code[p2 + 1];
      var p: nat := p1;
      while true
        invariant p1 <= p <= |text| && NoneIn(ops, s, p1, p)
        decreases |text| - p
      {
        if CharAt(text, p) == c {
          r, e := Advance(code, text, p, p2, ops, [p]);
          Tried(r, e, ops, s, p1, p, loc2, bras[..], brae[..]);
          if r != No {
            loc1 := p;
            return;
          }
        } else {
          WrongStart(ops, s, p1, p, c);
        }
        if CharAt(text, p) == NUL {
          return No, [];
        }
        p := p + 1;
      }
    }
  }

  lemma NoNuls(text: seq<byte>)
    requires IsText(text)
    ensures forall p :: 0 <= p < |text| ==> CharAt(text, p) != NUL
  {
    assert forall p :: 0 <= p < |text| ==> text[p] in text;
  }

  /** One start tried. */
  lemma Tried(r: Answer, e: seq<int>, ops: seq<Op>, s: Subject, p1: int, p: int, loc2: int,
              bras: seq<int>, brae: seq<int>)
    requires Fine(ops) && Verdict(r, e, ops, s, [p], loc2, bras, brae)
    requires p1 <= p <= |s.text| && NoneIn(ops, s, p1, p)
    ensures r == No ==> NoneIn(ops, s, p1, p + 1)
    ensures r != No ==> Leftmost(r, e, ops, s, p1, p, loc2)
    ensures r == Yes ==> SlotsHold(ops, e, bras, brae)
  {
  }

  /** A start whose character is not the one the pattern begins with. */
  lemma WrongStart(ops: seq<Op>, s: Subject, p1: int, p: nat, c: byte)
    requires Fine(ops) && IsText(s.text) && |ops| > 0 && ops[0] == One(Chr(c))
    requires p1 <= p <= |s.text| && CharAt(s.text, p) != c && NoneIn(ops, s, p1, p)
    ensures NoneIn(ops, s, p1, p + 1)
  {
    OneMoves(ops, s, [p]);
  }

  lemma FirstChar(code: seq<byte>, ep: nat, ops: seq<Op>)
    requires Holds(code, ep, ops, 0) && ep < |code| && code[ep] == CCHR
    ensures |ops| > 0 && ep + 1 < |code| && ops[0] == One(Chr(code[ep + 1]))
  {
    Decode(code, ep, ops, 0);
    OneOperands(code, ep, ops, 0, ops[0].a);
    assert ops[0].a.Chr?;
    assert code[ep + 1 + 0] == AtomArg(ops[0].a)[0];
  }

  /** No match, and nowhere to hang, at any start in [p, q). */
  ghost predicate NoneIn(ops: seq<Op>, s: Subject, p: int, q: int)
    requires Fine(ops)
  {
    forall j :: p <= j < q ==> NoEvent(ops, s, [j])
  }

  /** The answer of an unanchored search from p1. */
  ghost predicate Leftmost(r: Answer, e: seq<int>, ops: seq<Op>, s: Subject, p1: int, loc1: int, loc2: int)
    requires Fine(ops)
  {
    match r
    case No => NoneIn(ops, s, p1, |s.text| + 1)
    case Yes =>
      p1 <= loc1 <= |s.text| && NoneIn(ops, s, p1, loc1)
      && First(ops, s, [loc1], e) && Full(ops, s, e) && loc2 == e[|ops|]
    case Hangs =>
      p1 <= loc1 <= |s.text| && NoneIn(ops, s, p1, loc1)
      && First(ops, s, [loc1], e) && Stuck(ops, s, e)
  }

  // ----- what the answers mean

  /** What an answer at one start tells: yes is a match there, the one whose first differing cut is the
      greatest; no is that there is none; and the machine hangs exactly when the first thing that the search
      comes upon is a place with no way out. */
  lemma AnswerIsMeaning(r: Answer, e: seq<int>, ops: seq<Op>, s: Subject, p: int, loc2: int,
                        bras: seq<int>, brae: seq<int>)
    requires Fine(ops) && Verdict(r, e, ops, s, [p], loc2, bras, brae)
    ensures r == Hangs <==> HangsAt(ops, s, p)
    ensures r != Hangs ==> (r == Yes <==> exists q :: Matches(ops, s, p, q))
    ensures r == Yes ==> Matches(ops, s, p, loc2)
    ensures r == Yes ==> forall x :: Full(ops, s, x) && x[0] == p && x != e ==> Greater(e, x)
    ensures r == Yes ==>
              forall k: byte :: k < NBRA && Place(ops, Open(k)) < Place(ops, Close(k)) < |ops| ==>
                bras[k] == e[Place(ops, Open(k))] && brae[k] == e[Place(ops, Close(k))]
  {
    forall x | Full(ops, s, x) && x[0] == p
      ensures [p] <= x && Event(ops, s, x)
    {
    }
    if r == Yes {
      assert [p] <= e;
      assert e[0] == p;
      assert Matches(ops, s, p, loc2);
      FullNotHanging(ops, s, p, e);
    } else if r == No {
      assert forall x :: Full(ops, s, x) ==> x[0] != p;
    }
  }
}
